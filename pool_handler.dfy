/**
 * `GET /pools/:platform/:network/:contract_address`: request gating, the
 * cache-aside read of the pool's daily metrics (keyed by the request path,
 * one minute), the per-row metric derivation, and the cache-aside reads of
 * the pool and its two tokens (keyed by the lower-cased address, no expiry).
 *
 * The indexer, the chain's contract calls, the decimal parser and the
 * store's faults are the environment `Env`. Each `...Spec` function gives
 * an operation's result, the store's entries afterwards and the number of
 * indexer queries and contract calls it makes; the `Handler` methods are
 * proved to behave exactly so, counting their calls in ghost fields.
 */
module PoolHandler {
  import opened Wrappers
  import opened Errors
  import opened EthAddress
  import opened Network
  import opened TheGraph
  import opened DecimalText
  import opened Records
  import opened PoolMetrics
  import opened ResultCache

  /** The three path parameters of the request. */
  datatype Request = Request(platform: string, network: string, contractAddress: string)

  const PlatformUniswap := "uniswap"

  /** The request's URL path, the metrics list's cache key. */
  function RequestPath(req: Request): string {
    "/pools/" + req.platform + "/" + req.network + "/" + req.contractAddress
  }

  /** The struct fields whose validation tags reject the request, in declaration order. */
  function InvalidFields(req: Request): (fields: seq<string>)
    ensures "Network" in fields <==> !ValidateNetwork(req.network)
    ensures "ContractAddress" in fields <==> !IsHexAddress(req.contractAddress)
  {
    (if ValidateNetwork(req.network) then [] else ["Network"])
    + (if IsHexAddress(req.contractAddress) then [] else ["ContractAddress"])
  }

  /** The read-only contract calls the pool and ERC-20 bindings make, per network and contract. */
  datatype ChainReader = ChainReader(
    token0: (string, Address) -> Result<Address, string>,
    token1: (string, Address) -> Result<Address, string>,
    fee: (string, Address) -> Result<int, string>,
    name: (string, Address) -> Result<string, string>,
    symbol: (string, Address) -> Result<string, string>,
    decimals: (string, Address) -> Result<uint8, string>)

  /** Everything outside the handler: the indexer, the chain, `NewFromString` and the store's faults. */
  datatype Env = Env(
    indexer: PoolDayDataQuery -> Result<seq<PoolDayData>, string>,
    chain: ChainReader,
    parse: string -> Option<Decimal>,
    faults: StoreFaults)

  /** An operation's outcome: its result, the entries after it, and the queries and calls it made. */
  datatype Step<T> = Step(result: Result<T, Error>, entries: map<string, Entry>, queries: nat, calls: nat)

  /** The response body's content. */
  datatype PoolResponse = PoolResponse(
    contractAddress: Address,
    tokenLeft: Token,
    tokenRight: Token,
    fee: string,
    metrics: seq<PoolMetric>)

  /**
   * The metrics list's cache-aside read: on a hit the stored rows; on a miss the
   * indexer's rows, stored under `path` for one minute before they are used.
   */
  function FetchDayDataSpec(entries: map<string, Entry>, now: int, env: Env, path: string, network: string, address: Address): Step<seq<PoolDayData>> {
    match Read(entries, now, env.faults, path)
    case ReadFailed => Step(Failure(StoreFailed(path)), entries, 0, 0)
    case Hit(DayDataList(rows)) => Step(Success(rows), entries, 0, 0)
    case Hit(_) => Step(Failure(DecodeFailed(path)), entries, 0, 0)
    case Miss =>
      var queries := if SubgraphName(network).Some? then 1 else 0;
      match GetUniswapPoolDayDataList(network, address, env.indexer)
      case Failure(e) => Step(Failure(e), entries, queries, 0)
      case Success(rows) =>
        if path in env.faults.setFails then Step(Failure(StoreFailed(path)), entries, queries, 0)
        else Step(Success(rows), Written(entries, now, env.faults, path, DayDataList(rows), Some(MetricsTtl)), queries, 0)
  }

  /** `buildPool`: the cached pool, or Token0, Token1 and Fee read from the contract and cached. */
  function BuildPoolSpec(entries: map<string, Entry>, now: int, env: Env, network: string, address: Address): Step<Pool> {
    var key := AddressKey(address);
    match Read(entries, now, env.faults, key)
    case ReadFailed => Step(Failure(StoreFailed(key)), entries, 0, 0)
    case Hit(PoolRecord(pool)) => Step(Success(pool), entries, 0, 0)
    case Hit(_) => Step(Failure(DecodeFailed(key)), entries, 0, 0)
    case Miss =>
      match env.chain.token0(network, address)
      case Failure(m) => Step(Failure(ContractCallFailed(m)), entries, 0, 1)
      case Success(left) =>
        match env.chain.token1(network, address)
        case Failure(m) => Step(Failure(ContractCallFailed(m)), entries, 0, 2)
        case Success(right) =>
          match env.chain.fee(network, address)
          case Failure(m) => Step(Failure(ContractCallFailed(m)), entries, 0, 3)
          case Success(fee) =>
            var pool := Pool(address, left, right, fee);
            if key in env.faults.setFails then Step(Failure(StoreFailed(key)), entries, 0, 3)
            else Step(Success(pool), Written(entries, now, env.faults, key, PoolRecord(pool), None), 0, 3)
  }

  /** `buildToken`: the cached token, or Name, Symbol and Decimals read from the contract and cached. */
  function BuildTokenSpec(entries: map<string, Entry>, now: int, env: Env, network: string, address: Address): Step<Token> {
    var key := AddressKey(address);
    match Read(entries, now, env.faults, key)
    case ReadFailed => Step(Failure(StoreFailed(key)), entries, 0, 0)
    case Hit(TokenRecord(token)) => Step(Success(token), entries, 0, 0)
    case Hit(_) => Step(Failure(DecodeFailed(key)), entries, 0, 0)
    case Miss =>
      match env.chain.name(network, address)
      case Failure(m) => Step(Failure(ContractCallFailed(m)), entries, 0, 1)
      case Success(name) =>
        match env.chain.symbol(network, address)
        case Failure(m) => Step(Failure(ContractCallFailed(m)), entries, 0, 2)
        case Success(symbol) =>
          match env.chain.decimals(network, address)
          case Failure(m) => Step(Failure(ContractCallFailed(m)), entries, 0, 3)
          case Success(decimals) =>
            var token := Token(name, symbol, decimals, address);
            if key in env.faults.setFails then Step(Failure(StoreFailed(key)), entries, 0, 3)
            else Step(Success(token), Written(entries, now, env.faults, key, TokenRecord(token), None), 0, 3)
  }

  /** The part of `GetPool` after the pool is known: its fee text and its two tokens. */
  function CompleteSpec(entries: map<string, Entry>, now: int, env: Env, network: string, address: Address, pool: Pool, metrics: seq<PoolMetric>): Step<PoolResponse> {
    var left := BuildTokenSpec(entries, now, env, network, pool.tokenLeft);
    match left.result
    case Failure(e) => Step(Failure(e), left.entries, 0, left.calls)
    case Success(tokenLeft) =>
      var right := BuildTokenSpec(left.entries, now, env, network, pool.tokenRight);
      match right.result
      case Failure(e) => Step(Failure(e), right.entries, 0, left.calls + right.calls)
      case Success(tokenRight) =>
        Step(Success(PoolResponse(address, tokenLeft, tokenRight, FeeText(pool.fee), metrics)),
             right.entries, 0, left.calls + right.calls)
  }

  /** The part of `GetPool` after the metrics: the client lookup, the pool, then `CompleteSpec`. */
  function ChainSpec(entries: map<string, Entry>, now: int, env: Env, clients: set<string>, network: string, address: Address, metrics: seq<PoolMetric>): Step<PoolResponse> {
    if network !in clients then Step(Failure(UnsupportedNetwork), entries, 0, 0)
    else
      var built := BuildPoolSpec(entries, now, env, network, address);
      match built.result
      case Failure(e) => Step(Failure(e), built.entries, 0, built.calls)
      case Success(pool) =>
        var rest := CompleteSpec(built.entries, now, env, network, address, pool, metrics);
        Step(rest.result, rest.entries, 0, built.calls + rest.calls)
  }

  /** `GetPool`: validation, the platform check, the metrics, then `ChainSpec`. */
  function GetPoolSpec(entries: map<string, Entry>, now: int, env: Env, clients: set<string>, req: Request): Step<PoolResponse> {
    if InvalidFields(req) != [] then Step(Failure(InvalidRequest(InvalidFields(req))), entries, 0, 0)
    else if req.platform != PlatformUniswap then Step(Failure(UnsupportedPlatform), entries, 0, 0)
    else
      var address := HexToAddress(req.contractAddress);
      var fetched := FetchDayDataSpec(entries, now, env, RequestPath(req), req.network, address);
      match fetched.result
      case Failure(e) => Step(Failure(e), fetched.entries, fetched.queries, 0)
      case Success(rows) =>
        match MetricsOf(rows, address, env.parse)
        case Failure(e) => Step(Failure(e), fetched.entries, fetched.queries, 0)
        case Success(metrics) =>
          var rest := ChainSpec(fetched.entries, now, env, clients, req.network, address, metrics);
          Step(rest.result, rest.entries, fetched.queries, rest.calls)
  }

  /** The handler: the shared store, the networks it holds an RPC client for, and ghost call counters. */
  class Handler {
    const store: Store
    const clients: set<string>
    ghost var indexerQueries: nat
    ghost var contractCalls: nat

    /** A handler over `store` with a client for each of the four configured networks. */
    constructor (store: Store)
      ensures this.store == store && clients == ConfiguredNetworks()
      ensures indexerQueries == 0 && contractCalls == 0
    {
      this.store := store;
      clients := ConfiguredNetworks();
      indexerQueries := 0;
      contractCalls := 0;
    }

    method BuildPool(network: string, address: Address, env: Env) returns (r: Result<Pool, Error>)
      modifies this, store`entries
      ensures var s := BuildPoolSpec(old(store.entries), store.now, env, network, address);
        && r == s.result && store.entries == s.entries
        && indexerQueries == old(indexerQueries) && contractCalls == old(contractCalls) + s.calls
    {
      var key := AddressKey(address);
      var cached := store.Get(key, env.faults);
      if cached.ReadFailed? {
        return Failure(StoreFailed(key));
      }
      if cached.Hit? {
        if cached.value.PoolRecord? {
          return Success(cached.value.pool);
        }
        return Failure(DecodeFailed(key));
      }
      var left := env.chain.token0(network, address);
      contractCalls := contractCalls + 1;
      if left.Failure? {
        return Failure(ContractCallFailed(left.error));
      }
      var right := env.chain.token1(network, address);
      contractCalls := contractCalls + 1;
      if right.Failure? {
        return Failure(ContractCallFailed(right.error));
      }
      var fee := env.chain.fee(network, address);
      contractCalls := contractCalls + 1;
      if fee.Failure? {
        return Failure(ContractCallFailed(fee.error));
      }
      var pool := Pool(address, left.value, right.value, fee.value);
      var stored := store.Set(key, PoolRecord(pool), None, env.faults);
      if !stored {
        return Failure(StoreFailed(key));
      }
      return Success(pool);
    }

    method BuildToken(network: string, address: Address, env: Env) returns (r: Result<Token, Error>)
      modifies this, store`entries
      ensures var s := BuildTokenSpec(old(store.entries), store.now, env, network, address);
        && r == s.result && store.entries == s.entries
        && indexerQueries == old(indexerQueries) && contractCalls == old(contractCalls) + s.calls
    {
      var key := AddressKey(address);
      var cached := store.Get(key, env.faults);
      if cached.ReadFailed? {
        return Failure(StoreFailed(key));
      }
      if cached.Hit? {
        if cached.value.TokenRecord? {
          return Success(cached.value.token);
        }
        return Failure(DecodeFailed(key));
      }
      var name := env.chain.name(network, address);
      contractCalls := contractCalls + 1;
      if name.Failure? {
        return Failure(ContractCallFailed(name.error));
      }
      var symbol := env.chain.symbol(network, address);
      contractCalls := contractCalls + 1;
      if symbol.Failure? {
        return Failure(ContractCallFailed(symbol.error));
      }
      var decimals := env.chain.decimals(network, address);
      contractCalls := contractCalls + 1;
      if decimals.Failure? {
        return Failure(ContractCallFailed(decimals.error));
      }
      var token := Token(name.value, symbol.value, decimals.value, address);
      var stored := store.Set(key, TokenRecord(token), None, env.faults);
      if !stored {
        return Failure(StoreFailed(key));
      }
      return Success(token);
    }

    /** The metrics list's cache-aside read, issuing the indexer query on a miss. */
    method FetchDayData(path: string, network: string, address: Address, env: Env) returns (r: Result<seq<PoolDayData>, Error>)
      modifies this, store`entries
      ensures var s := FetchDayDataSpec(old(store.entries), store.now, env, path, network, address);
        && r == s.result && store.entries == s.entries
        && indexerQueries == old(indexerQueries) + s.queries && contractCalls == old(contractCalls)
    {
      var cached := store.Get(path, env.faults);
      if cached.ReadFailed? {
        return Failure(StoreFailed(path));
      }
      if cached.Hit? {
        if cached.value.DayDataList? {
          return Success(cached.value.rows);
        }
        return Failure(DecodeFailed(path));
      }
      var query := NewQuery(network, address);
      if query.Failure? {
        return Failure(query.error);
      }
      var answer := env.indexer(query.value);
      indexerQueries := indexerQueries + 1;
      if answer.Failure? {
        return Failure(IndexerFailed(answer.error));
      }
      var stored := store.Set(path, DayDataList(answer.value), Some(MetricsTtl), env.faults);
      if !stored {
        return Failure(StoreFailed(path));
      }
      return Success(answer.value);
    }

    method GetPool(req: Request, env: Env) returns (r: Result<PoolResponse, Error>)
      modifies this, store`entries
      ensures var s := GetPoolSpec(old(store.entries), store.now, env, clients, req);
        && r == s.result && store.entries == s.entries
        && indexerQueries == old(indexerQueries) + s.queries && contractCalls == old(contractCalls) + s.calls
    {
      var invalid := InvalidFields(req);
      if invalid != [] {
        return Failure(InvalidRequest(invalid));
      }
      if req.platform != PlatformUniswap {
        return Failure(UnsupportedPlatform);
      }
      var address := HexToAddress(req.contractAddress);
      var rows := FetchDayData(RequestPath(req), req.network, address, env);
      if rows.Failure? {
        return Failure(rows.error);
      }
      var metrics := DeriveMetrics(rows.value, address, env.parse);
      if metrics.Failure? {
        return Failure(metrics.error);
      }
      if req.network !in clients {
        return Failure(UnsupportedNetwork);
      }
      var pool := BuildPool(req.network, address, env);
      if pool.Failure? {
        return Failure(pool.error);
      }
      var fee := FeeText(pool.value.fee);
      var tokenLeft := BuildToken(req.network, pool.value.tokenLeft, env);
      if tokenLeft.Failure? {
        return Failure(tokenLeft.error);
      }
      var tokenRight := BuildToken(req.network, pool.value.tokenRight, env);
      if tokenRight.Failure? {
        return Failure(tokenRight.error);
      }
      return Success(PoolResponse(address, tokenLeft.value, tokenRight.value, fee, metrics.value));
    }
  }
}
