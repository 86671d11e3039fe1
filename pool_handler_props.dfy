/**
 * What the pool handler promises about its cache, its upstream calls and its
 * errors, stated over the specification functions of `PoolHandler` (which
 * the `Handler` methods are proved to follow step for step).
 */
module PoolHandlerProperties {
  import opened Wrappers
  import opened Errors
  import opened EthAddress
  import opened Network
  import opened TheGraph
  import opened DecimalText
  import opened Records
  import opened PoolMetrics
  import opened ResultCache
  import opened PoolHandler

  /** `b` differs from `a` at most under `key`, and no key is removed. */
  predicate AgreeExcept(a: map<string, Entry>, b: map<string, Entry>, key: string) {
    && (forall k :: k in a ==> k in b)
    && (forall k :: k in b && k != key ==> k in a && b[k] == a[k])
  }

  /** `key` holds `value` in `e`. */
  predicate Holds(e: map<string, Entry>, key: string, value: Payload) {
    key in e && e[key].value == value
  }

  /** A key no address can have: address keys start with the digit `0`. */
  predicate OutsideAddressKeys(k: string) {
    |k| == 0 || k[0] != '0'
  }

  /**
   * The keys the pool-and-token stage reads and may write: the pool's address key
   * and, once the pool is known, its two tokens' address keys.
   */
  function ChainKeys(entries: map<string, Entry>, now: int, env: Env, network: string, address: Address): set<string> {
    var built := BuildPoolSpec(entries, now, env, network, address);
    if built.result.Success? then
      {AddressKey(address), AddressKey(built.result.value.tokenLeft), AddressKey(built.result.value.tokenRight)}
    else {AddressKey(address)}
  }

  /** The keys a request reads and may write: its path and the keys of its pool-and-token stage. */
  function RequestKeys(entries: map<string, Entry>, now: int, env: Env, req: Request): set<string> {
    if InvalidFields(req) != [] || req.platform != PlatformUniswap then {}
    else
      var address := HexToAddress(req.contractAddress);
      var fetched := FetchDayDataSpec(entries, now, env, RequestPath(req), req.network, address);
      {RequestPath(req)} + ChainKeys(fetched.entries, now, env, req.network, address)
  }

  lemma NotAnAddressKey(k: string, a: Address)
    requires OutsideAddressKeys(k)
    ensures k != AddressKey(a)
  {
    KeyStartsWithZero(a);
  }

  /** The metrics key is a path, never an address key. */
  lemma PathOutsideAddressKeys(req: Request)
    ensures OutsideAddressKeys(RequestPath(req))
  {
    assert RequestPath(req)[0] == '/';
  }

  // ----- buildPool and buildToken -----

  /**
   * `buildPool` is cache-aside under the lower-cased address: a hit returns the
   * stored pool with no contract call; a miss makes the three calls and stores the
   * pool with no expiry; any failure leaves the cache as it was; nothing else changes.
   */
  lemma BuildPoolCacheAside(entries: map<string, Entry>, now: int, env: Env, network: string, address: Address)
    ensures var s := BuildPoolSpec(entries, now, env, network, address);
      var key := AddressKey(address);
      var lookup := Read(entries, now, env.faults, key);
      && AgreeExcept(entries, s.entries, key)
      && s.queries == 0
      && (s.calls == 0 <==> !lookup.Miss?)
      && (lookup.Hit? && lookup.value.PoolRecord? ==> s == Step(Success(lookup.value.pool), entries, 0, 0))
      && (s.result.Failure? ==> s.entries == entries)
      && (lookup.Miss? && s.result.Success? ==>
            && s.calls == 3
            && s.result.value == Pool(address, env.chain.token0(network, address).value,
                                      env.chain.token1(network, address).value, env.chain.fee(network, address).value)
            && s.entries == entries[key := Entry(PoolRecord(s.result.value), None)])
      && (s.result.Success? ==> key !in env.faults.getFails && Holds(s.entries, key, PoolRecord(s.result.value)))
  {
  }

  /** `buildToken` is cache-aside under the lower-cased address in the same way. */
  lemma BuildTokenCacheAside(entries: map<string, Entry>, now: int, env: Env, network: string, address: Address)
    ensures var s := BuildTokenSpec(entries, now, env, network, address);
      var key := AddressKey(address);
      var lookup := Read(entries, now, env.faults, key);
      && AgreeExcept(entries, s.entries, key)
      && s.queries == 0
      && (s.calls == 0 <==> !lookup.Miss?)
      && (lookup.Hit? && lookup.value.TokenRecord? ==> s == Step(Success(lookup.value.token), entries, 0, 0))
      && (s.result.Failure? ==> s.entries == entries)
      && (lookup.Miss? && s.result.Success? ==>
            && s.calls == 3
            && s.result.value == Token(env.chain.name(network, address).value, env.chain.symbol(network, address).value,
                                       env.chain.decimals(network, address).value, address)
            && s.entries == entries[key := Entry(TokenRecord(s.result.value), None)])
      && (s.result.Success? ==> key !in env.faults.getFails && Holds(s.entries, key, TokenRecord(s.result.value)))
  {
  }

  /** `buildPool` writes under its own address key only, and removes nothing. */
  lemma PoolBuildFrame(entries: map<string, Entry>, now: int, env: Env, network: string, address: Address)
    ensures AgreeExcept(entries, BuildPoolSpec(entries, now, env, network, address).entries, AddressKey(address))
  {
  }

  /** `buildToken` writes under its own address key only, and removes nothing. */
  lemma TokenBuildFrame(entries: map<string, Entry>, now: int, env: Env, network: string, address: Address)
    ensures AgreeExcept(entries, BuildTokenSpec(entries, now, env, network, address).entries, AddressKey(address))
  {
  }

  /** The pool-and-token stage removes no entry and changes none outside its own keys. */
  lemma ChainSpecWritesOnlyItsKeys(entries: map<string, Entry>, now: int, env: Env, clients: set<string>, network: string, address: Address, metrics: seq<PoolMetric>, k: string)
    requires k !in ChainKeys(entries, now, env, network, address)
    ensures var s := ChainSpec(entries, now, env, clients, network, address, metrics);
      && (forall j :: j in entries ==> j in s.entries)
      && (k in s.entries <==> k in entries)
      && (k in entries ==> s.entries[k] == entries[k])
  {
    if network in clients {
      var built := BuildPoolSpec(entries, now, env, network, address);
      PoolBuildFrame(entries, now, env, network, address);
      assert k != AddressKey(address);
      if built.result.Success? {
        var pool := built.result.value;
        assert k != AddressKey(pool.tokenLeft) && k != AddressKey(pool.tokenRight);
        var left := BuildTokenSpec(built.entries, now, env, network, pool.tokenLeft);
        TokenBuildFrame(built.entries, now, env, network, pool.tokenLeft);
        if left.result.Success? {
          TokenBuildFrame(left.entries, now, env, network, pool.tokenRight);
        }
      }
    }
  }

  /** A key outside the address keys, such as a request path, is never touched once the metrics are derived. */
  lemma ChainSpecKeeps(entries: map<string, Entry>, now: int, env: Env, clients: set<string>, network: string, address: Address, metrics: seq<PoolMetric>, k: string)
    requires OutsideAddressKeys(k)
    ensures var s := ChainSpec(entries, now, env, clients, network, address, metrics);
      && (forall j :: j in entries ==> j in s.entries)
      && (k in s.entries <==> k in entries)
      && (k in entries ==> s.entries[k] == entries[k])
  {
    var built := BuildPoolSpec(entries, now, env, network, address);
    NotAnAddressKey(k, address);
    if built.result.Success? {
      NotAnAddressKey(k, built.result.value.tokenLeft);
      NotAnAddressKey(k, built.result.value.tokenRight);
    }
    ChainSpecWritesOnlyItsKeys(entries, now, env, clients, network, address, metrics, k);
  }

  // ----- GetPool -----

  /** The errors that arise only after the request has passed validation and the platform check. */
  predicate DownstreamError(e: Error) {
    e.StoreFailed? || e.DecodeFailed? || e.UnsupportedNetwork? || e.IndexerFailed?
    || e.ContractCallFailed? || e.MalformedDecimal?
  }

  lemma MetricsErrorIsMalformedDecimal(rows: seq<PoolDayData>, address: Address, parse: string -> Option<Decimal>)
    requires MetricsOf(rows, address, parse).Failure?
    ensures MetricsOf(rows, address, parse).error.MalformedDecimal?
  {
    MetricsOfFirstFailure(rows, address, parse);
  }

  lemma FetchErrorIsDownstream(entries: map<string, Entry>, now: int, env: Env, path: string, network: string, address: Address)
    ensures var s := FetchDayDataSpec(entries, now, env, path, network, address);
      s.result.Failure? ==> DownstreamError(s.result.error)
  {
  }

  lemma BuildErrorsAreDownstream(entries: map<string, Entry>, now: int, env: Env, network: string, address: Address)
    ensures var s := BuildPoolSpec(entries, now, env, network, address);
      s.result.Failure? ==> DownstreamError(s.result.error)
    ensures var s := BuildTokenSpec(entries, now, env, network, address);
      s.result.Failure? ==> DownstreamError(s.result.error)
  {
  }

  lemma ChainErrorIsDownstream(entries: map<string, Entry>, now: int, env: Env, clients: set<string>, network: string, address: Address, metrics: seq<PoolMetric>)
    ensures var s := ChainSpec(entries, now, env, clients, network, address, metrics);
      s.result.Failure? ==> DownstreamError(s.result.error)
  {
    if network in clients {
      var built := BuildPoolSpec(entries, now, env, network, address);
      BuildErrorsAreDownstream(entries, now, env, network, address);
      if built.result.Success? {
        var pool := built.result.value;
        BuildErrorsAreDownstream(built.entries, now, env, network, pool.tokenLeft);
        var left := BuildTokenSpec(built.entries, now, env, network, pool.tokenLeft);
        if left.result.Success? {
          BuildErrorsAreDownstream(left.entries, now, env, network, pool.tokenRight);
        }
      }
    }
  }

  /** Once past validation and the platform check, every error is one of the downstream kinds. */
  lemma ValidatedErrorsAreDownstream(entries: map<string, Entry>, now: int, env: Env, clients: set<string>, req: Request)
    requires InvalidFields(req) == [] && req.platform == PlatformUniswap
    ensures var s := GetPoolSpec(entries, now, env, clients, req);
      s.result.Failure? ==> DownstreamError(s.result.error)
  {
    var address := HexToAddress(req.contractAddress);
    var fetched := FetchDayDataSpec(entries, now, env, RequestPath(req), req.network, address);
    FetchErrorIsDownstream(entries, now, env, RequestPath(req), req.network, address);
    if fetched.result.Success? {
      var derived := MetricsOf(fetched.result.value, address, env.parse);
      if derived.Failure? {
        MetricsErrorIsMalformedDecimal(fetched.result.value, address, env.parse);
      } else {
        ChainErrorIsDownstream(fetched.entries, now, env, clients, req.network, address, derived.value);
      }
    }
  }

  /**
   * Validation and the platform check come first: an invalid field or a platform
   * other than exactly `uniswap` is refused before any cache read, query or call,
   * and these two errors arise in no other way.
   */
  lemma GatingBeforeAnyIO(entries: map<string, Entry>, now: int, env: Env, clients: set<string>, req: Request)
    ensures var s := GetPoolSpec(entries, now, env, clients, req);
      && (s.result.Failure? && s.result.error.InvalidRequest? <==> InvalidFields(req) != [])
      && (s.result == Failure(UnsupportedPlatform) <==> InvalidFields(req) == [] && req.platform != PlatformUniswap)
      && (InvalidFields(req) != [] || req.platform != PlatformUniswap ==>
            s.entries == entries && s.queries == 0 && s.calls == 0)
  {
    if InvalidFields(req) == [] && req.platform == PlatformUniswap {
      ValidatedErrorsAreDownstream(entries, now, env, clients, req);
    }
  }

  /** A store error on the metrics read is returned as it is, before any query or call. */
  lemma StoreReadErrorPropagates(entries: map<string, Entry>, now: int, env: Env, clients: set<string>, req: Request)
    requires InvalidFields(req) == [] && req.platform == PlatformUniswap
    requires RequestPath(req) in env.faults.getFails
    ensures GetPoolSpec(entries, now, env, clients, req) == Step(Failure(StoreFailed(RequestPath(req))), entries, 0, 0)
  {
  }

  /** On a metrics hit the indexer is not queried and the metrics come from the stored rows. */
  lemma MetricsHitSkipsIndexer(entries: map<string, Entry>, now: int, env: Env, clients: set<string>, req: Request, rows: seq<PoolDayData>)
    requires InvalidFields(req) == [] && req.platform == PlatformUniswap
    requires Read(entries, now, env.faults, RequestPath(req)) == Hit(DayDataList(rows))
    ensures var s := GetPoolSpec(entries, now, env, clients, req);
      var derived := MetricsOf(rows, HexToAddress(req.contractAddress), env.parse);
      && s.queries == 0
      && (derived.Failure? ==> s == Step(Failure(derived.error), entries, 0, 0))
      && (s.result.Success? ==> s.result.value.metrics == derived.value)
  {
  }

  /**
   * On a metrics miss for a network with a subgraph, the indexer is queried once and
   * its rows are stored under the request path for one minute; the entry stays
   * whatever happens afterwards (a bad row, the pool or a token failing).
   */
  lemma MetricsMissStoresForOneMinute(entries: map<string, Entry>, now: int, env: Env, clients: set<string>, req: Request, rows: seq<PoolDayData>)
    requires InvalidFields(req) == [] && req.platform == PlatformUniswap
    requires Read(entries, now, env.faults, RequestPath(req)) == Miss
    requires SubgraphName(req.network).Some?
    requires env.indexer(NewQuery(req.network, HexToAddress(req.contractAddress)).value) == Success(rows)
    requires RequestPath(req) !in env.faults.setFails
    ensures var s := GetPoolSpec(entries, now, env, clients, req);
      && s.queries == 1
      && RequestPath(req) in s.entries
      && s.entries[RequestPath(req)] == Entry(DayDataList(rows), Some(now + MetricsTtl))
  {
    var path := RequestPath(req);
    var address := HexToAddress(req.contractAddress);
    var fetched := FetchDayDataSpec(entries, now, env, path, req.network, address);
    assert fetched.entries == entries[path := Entry(DayDataList(rows), Some(now + MetricsTtl))];
    if MetricsOf(rows, address, env.parse).Success? {
      PathOutsideAddressKeys(req);
      ChainSpecKeeps(fetched.entries, now, env, clients, req.network, address, MetricsOf(rows, address, env.parse).value, path);
    }
  }

  /** A failed fetch (no subgraph, or the indexer's error) is returned and nothing is written. */
  lemma FetchFailureWritesNothing(entries: map<string, Entry>, now: int, env: Env, clients: set<string>, req: Request)
    requires InvalidFields(req) == [] && req.platform == PlatformUniswap
    requires Read(entries, now, env.faults, RequestPath(req)) == Miss
    requires GetUniswapPoolDayDataList(req.network, HexToAddress(req.contractAddress), env.indexer).Failure?
    ensures var s := GetPoolSpec(entries, now, env, clients, req);
      && s.result == Failure(GetUniswapPoolDayDataList(req.network, HexToAddress(req.contractAddress), env.indexer).error)
      && s.entries == entries && s.calls == 0
      && s.queries == (if SubgraphName(req.network).Some? then 1 else 0)
  {
  }

  /** The metrics read fails with `unsupported network` exactly on a miss for a network without a subgraph. */
  lemma FetchUnsupportedExactly(entries: map<string, Entry>, now: int, env: Env, path: string, network: string, address: Address)
    ensures var fetched := FetchDayDataSpec(entries, now, env, path, network, address);
      && (fetched.result == Failure(UnsupportedNetwork) <==>
            Read(entries, now, env.faults, path) == Miss && SubgraphName(network).None?)
      && (fetched.result == Failure(UnsupportedNetwork) ==> fetched == Step(Failure(UnsupportedNetwork), entries, 0, 0))
  {
  }

  /** Once the network has a client, the pool and token reads never report `unsupported network`. */
  lemma ChainSpecSupported(entries: map<string, Entry>, now: int, env: Env, clients: set<string>, network: string, address: Address, metrics: seq<PoolMetric>)
    requires network in clients
    ensures ChainSpec(entries, now, env, clients, network, address, metrics).result != Failure(UnsupportedNetwork)
  {
    var built := BuildPoolSpec(entries, now, env, network, address);
    if built.result.Success? {
      var pool := built.result.value;
      var left := BuildTokenSpec(built.entries, now, env, network, pool.tokenLeft);
      if left.result.Success? {
        var right := BuildTokenSpec(left.entries, now, env, network, pool.tokenRight);
        assert right.result != Failure(UnsupportedNetwork);
      }
    }
  }

  /**
   * With a client for each of the four networks, `unsupported network` arises exactly
   * for Optimism and Arbitrum requests whose metrics are not cached: the indexer has no
   * subgraph for them, and they are refused with no query, no call and no write.
   */
  lemma UnsupportedNetworkExactly(entries: map<string, Entry>, now: int, env: Env, req: Request)
    ensures var s := GetPoolSpec(entries, now, env, ConfiguredNetworks(), req);
      && (s.result == Failure(UnsupportedNetwork) <==>
            && InvalidFields(req) == [] && req.platform == PlatformUniswap
            && (req.network == NetworkOptimism || req.network == NetworkArbitrum)
            && Read(entries, now, env.faults, RequestPath(req)) == Miss)
      && (s.result == Failure(UnsupportedNetwork) ==> s.entries == entries && s.queries == 0 && s.calls == 0)
  {
    if InvalidFields(req) == [] && req.platform == PlatformUniswap {
      ValidatedNetworksAreConfigured(req.network);
      ValidatedButUnindexed(req.network);
      var address := HexToAddress(req.contractAddress);
      var path := RequestPath(req);
      var fetched := FetchDayDataSpec(entries, now, env, path, req.network, address);
      FetchUnsupportedExactly(entries, now, env, path, req.network, address);
      if fetched.result.Success? {
        var rows := fetched.result.value;
        var derived := MetricsOf(rows, address, env.parse);
        if derived.Failure? {
          MetricsErrorIsMalformedDecimal(rows, address, env.parse);
        } else {
          ChainSpecSupported(fetched.entries, now, env, ConfiguredNetworks(), req.network, address, derived.value);
        }
      }
    }
  }

  /**
   * A row whose amounts do not parse aborts the request with that row's error when
   * every earlier row parsed; no contract is called and no response is produced.
   */
  lemma MalformedRowAborts(entries: map<string, Entry>, now: int, env: Env, clients: set<string>, req: Request, i: nat)
    requires InvalidFields(req) == [] && req.platform == PlatformUniswap
    requires var fetched := FetchDayDataSpec(entries, now, env, RequestPath(req), req.network, HexToAddress(req.contractAddress));
      && fetched.result.Success? && i < |fetched.result.value|
      && DeriveMetric(fetched.result.value[i], HexToAddress(req.contractAddress), env.parse).Failure?
      && forall j :: 0 <= j < i ==> DeriveMetric(fetched.result.value[j], HexToAddress(req.contractAddress), env.parse).Success?
    ensures var address := HexToAddress(req.contractAddress);
      var fetched := FetchDayDataSpec(entries, now, env, RequestPath(req), req.network, address);
      var row := fetched.result.value[i];
      var s := GetPoolSpec(entries, now, env, clients, req);
      && s == Step(Failure(DeriveMetric(row, address, env.parse).error), fetched.entries, fetched.queries, 0)
      && s.result.error.MalformedDecimal?
      && s.result.error.text in [row.totalValueLocked, row.volume, row.fees]
  {
    var address := HexToAddress(req.contractAddress);
    var fetched := FetchDayDataSpec(entries, now, env, RequestPath(req), req.network, address);
    var rows := fetched.result.value;
    MetricsOfRowByRow(rows[..i], address, env.parse);
    RowFailureStops(rows, i, address, env.parse);
  }

  /** A response is assembled from the fetched rows' metrics, the requested address and the pool's fee. */
  lemma ResponseParts(entries: map<string, Entry>, now: int, env: Env, clients: set<string>, req: Request)
    requires GetPoolSpec(entries, now, env, clients, req).result.Success?
    ensures var address := HexToAddress(req.contractAddress);
      var fetched := FetchDayDataSpec(entries, now, env, RequestPath(req), req.network, address);
      var response := GetPoolSpec(entries, now, env, clients, req).result.value;
      && fetched.result.Success?
      && MetricsOf(fetched.result.value, address, env.parse).Success?
      && response.metrics == MetricsOf(fetched.result.value, address, env.parse).value
      && response.contractAddress == address
      && response.fee == FeeText(BuildPoolSpec(fetched.entries, now, env, req.network, address).result.value.fee)
  {
  }

  /**
   * A response carries one metric per indexer row, in the rows' order, each stamped
   * with the row's date and the requested address.
   */
  lemma OneMetricPerRow(entries: map<string, Entry>, now: int, env: Env, clients: set<string>, req: Request)
    requires GetPoolSpec(entries, now, env, clients, req).result.Success?
    ensures var address := HexToAddress(req.contractAddress);
      var fetched := FetchDayDataSpec(entries, now, env, RequestPath(req), req.network, address);
      var metrics := GetPoolSpec(entries, now, env, clients, req).result.value.metrics;
      && fetched.result.Success?
      && |metrics| == |fetched.result.value|
      && forall i :: 0 <= i < |metrics| ==>
           && DeriveMetric(fetched.result.value[i], address, env.parse) == Success(metrics[i])
           && metrics[i].timestamp == fetched.result.value[i].date
           && metrics[i].contractAddress == address
  {
    var address := HexToAddress(req.contractAddress);
    ResponseParts(entries, now, env, clients, req);
    var rows := FetchDayDataSpec(entries, now, env, RequestPath(req), req.network, address).result.value;
    MetricsStamped(rows, address, env.parse);
  }

  lemma MetricsStamped(rows: seq<PoolDayData>, address: Address, parse: string -> Option<Decimal>)
    requires MetricsOf(rows, address, parse).Success?
    ensures var metrics := MetricsOf(rows, address, parse).value;
      && |metrics| == |rows|
      && forall i :: 0 <= i < |metrics| ==>
           && DeriveMetric(rows[i], address, parse) == Success(metrics[i])
           && metrics[i].timestamp == rows[i].date
           && metrics[i].contractAddress == address
  {
    MetricsOfRowByRow(rows, address, parse);
  }

  /**
   * Addresses that differ only in letter case send the same indexer query but are
   * cached under different paths.
   */
  lemma CaseVariantsShareQueryNotEntry(req: Request, other: string)
    requires IsHexAddress(req.contractAddress) && IsHexAddress(other)
    requires ToLower(req.contractAddress) == ToLower(other) && req.contractAddress != other
    ensures NewQuery(req.network, HexToAddress(req.contractAddress)) == NewQuery(req.network, HexToAddress(other))
    ensures RequestPath(req) != RequestPath(req.(contractAddress := other))
  {
    QueryIgnoresAddressCase(req.network, req.contractAddress, other);
    var prefix := "/pools/" + req.platform + "/" + req.network + "/";
    assert RequestPath(req) == prefix + req.contractAddress;
    assert RequestPath(req.(contractAddress := other)) == prefix + other;
    assert (prefix + req.contractAddress)[|prefix|..] == req.contractAddress;
    assert (prefix + other)[|prefix|..] == other;
  }

  // ----- serving a repeated request from the cache -----

  /** A successful `buildPool` leaves its pool stored, live, under the address key. */
  lemma PoolBuilt(entries: map<string, Entry>, now: int, env: Env, network: string, address: Address)
    requires BuildPoolSpec(entries, now, env, network, address).result.Success?
    ensures var s := BuildPoolSpec(entries, now, env, network, address);
      var key := AddressKey(address);
      && key !in env.faults.getFails
      && Holds(s.entries, key, PoolRecord(s.result.value)) && Live(s.entries[key], now)
  {
  }

  /** A successful `buildToken` leaves its token stored, live, under the address key. */
  lemma TokenBuilt(entries: map<string, Entry>, now: int, env: Env, network: string, address: Address)
    requires BuildTokenSpec(entries, now, env, network, address).result.Success?
    ensures var s := BuildTokenSpec(entries, now, env, network, address);
      var key := AddressKey(address);
      && key !in env.faults.getFails
      && Holds(s.entries, key, TokenRecord(s.result.value)) && Live(s.entries[key], now)
  {
  }

  /**
   * A successful `buildToken` keeps every live entry: under another key nothing is
   * written, and under its own key a live entry is a hit.
   */
  lemma TokenBuildKeeps(entries: map<string, Entry>, now: int, env: Env, network: string, address: Address, k: string)
    requires k in entries && Live(entries[k], now)
    requires BuildTokenSpec(entries, now, env, network, address).result.Success?
    ensures var s := BuildTokenSpec(entries, now, env, network, address);
      k in s.entries && s.entries[k] == entries[k]
  {
  }

  lemma PoolServedFromCache(e: map<string, Entry>, later: int, env: Env, network: string, address: Address, pool: Pool)
    requires AddressKey(address) !in env.faults.getFails
    requires Holds(e, AddressKey(address), PoolRecord(pool)) && Live(e[AddressKey(address)], later)
    ensures BuildPoolSpec(e, later, env, network, address) == Step(Success(pool), e, 0, 0)
  {
  }

  lemma TokenServedFromCache(e: map<string, Entry>, later: int, env: Env, network: string, address: Address, token: Token)
    requires AddressKey(address) !in env.faults.getFails
    requires Holds(e, AddressKey(address), TokenRecord(token)) && Live(e[AddressKey(address)], later)
    ensures BuildTokenSpec(e, later, env, network, address) == Step(Success(token), e, 0, 0)
  {
  }

  /**
   * A successful pool-and-token stage, repeated while the entries under its own keys
   * are live, returns the same result with no contract call and no write.
   */
  lemma ChainSpecRepeat(entries: map<string, Entry>, now: int, later: int, env: Env, clients: set<string>, network: string, address: Address, metrics: seq<PoolMetric>)
    requires ChainSpec(entries, now, env, clients, network, address, metrics).result.Success?
    requires var e := ChainSpec(entries, now, env, clients, network, address, metrics).entries;
      forall k :: k in ChainKeys(entries, now, env, network, address) && k in e ==> Live(e[k], later)
    ensures var s := ChainSpec(entries, now, env, clients, network, address, metrics);
      ChainSpec(s.entries, later, env, clients, network, address, metrics) == Step(s.result, s.entries, 0, 0)
  {
    var built := BuildPoolSpec(entries, now, env, network, address);
    PoolBuilt(entries, now, env, network, address);
    var pool := built.result.value;
    var poolKey := AddressKey(address);
    var left := BuildTokenSpec(built.entries, now, env, network, pool.tokenLeft);
    TokenBuilt(built.entries, now, env, network, pool.tokenLeft);
    TokenBuildKeeps(built.entries, now, env, network, pool.tokenLeft, poolKey);
    var leftKey := AddressKey(pool.tokenLeft);
    var right := BuildTokenSpec(left.entries, now, env, network, pool.tokenRight);
    TokenBuilt(left.entries, now, env, network, pool.tokenRight);
    TokenBuildKeeps(left.entries, now, env, network, pool.tokenRight, poolKey);
    TokenBuildKeeps(left.entries, now, env, network, pool.tokenRight, leftKey);
    var e := right.entries;
    assert ChainKeys(entries, now, env, network, address) == {poolKey, leftKey, AddressKey(pool.tokenRight)};
    PoolServedFromCache(e, later, env, network, address, pool);
    TokenServedFromCache(e, later, env, network, pool.tokenLeft, left.result.value);
    TokenServedFromCache(e, later, env, network, pool.tokenRight, right.result.value);
  }

  /**
   * A request that succeeded is answered again identically from the cache, with no
   * query, no contract call and no write, for as long as the entries it left under
   * its own keys are live (the metrics for one minute, the pool and its tokens
   * indefinitely); other entries may have expired.
   */
  lemma RepeatServedFromCache(entries: map<string, Entry>, now: int, later: int, env: Env, clients: set<string>, req: Request)
    requires GetPoolSpec(entries, now, env, clients, req).result.Success?
    requires var e := GetPoolSpec(entries, now, env, clients, req).entries;
      forall k :: k in RequestKeys(entries, now, env, req) && k in e ==> Live(e[k], later)
    ensures var s := GetPoolSpec(entries, now, env, clients, req);
      GetPoolSpec(s.entries, later, env, clients, req) == Step(s.result, s.entries, 0, 0)
  {
    var path := RequestPath(req);
    var address := HexToAddress(req.contractAddress);
    var fetched := FetchDayDataSpec(entries, now, env, path, req.network, address);
    FetchSucceeded(entries, now, env, path, req.network, address);
    var rows := fetched.result.value;
    var metrics := MetricsOf(rows, address, env.parse).value;
    var rest := ChainSpec(fetched.entries, now, env, clients, req.network, address, metrics);
    assert RequestKeys(entries, now, env, req) == {path} + ChainKeys(fetched.entries, now, env, req.network, address);
    PathOutsideAddressKeys(req);
    ChainSpecKeeps(fetched.entries, now, env, clients, req.network, address, metrics, path);
    ChainSpecRepeat(fetched.entries, now, later, env, clients, req.network, address, metrics);
    MetricsServedFromCache(rest.entries, later, env, path, req.network, address, rows);
  }

  /** A successful metrics fetch leaves the rows stored under the path. */
  lemma FetchSucceeded(entries: map<string, Entry>, now: int, env: Env, path: string, network: string, address: Address)
    requires FetchDayDataSpec(entries, now, env, path, network, address).result.Success?
    ensures var s := FetchDayDataSpec(entries, now, env, path, network, address);
      path !in env.faults.getFails && Holds(s.entries, path, DayDataList(s.result.value))
  {
  }

  lemma MetricsServedFromCache(e: map<string, Entry>, later: int, env: Env, path: string, network: string, address: Address, rows: seq<PoolDayData>)
    requires path !in env.faults.getFails
    requires Holds(e, path, DayDataList(rows)) && Live(e[path], later)
    ensures FetchDayDataSpec(e, later, env, path, network, address) == Step(Success(rows), e, 0, 0)
  {
  }

  /**
   * A request never removes an entry, and changes none but its own: the request
   * path's, the pool's and the two tokens' address keys.
   */
  lemma GetPoolWritesOnlyItsKeys(entries: map<string, Entry>, now: int, env: Env, clients: set<string>, req: Request, k: string)
    requires k !in RequestKeys(entries, now, env, req)
    ensures var s := GetPoolSpec(entries, now, env, clients, req);
      && (forall j :: j in entries ==> j in s.entries)
      && (k in s.entries <==> k in entries)
      && (k in entries ==> s.entries[k] == entries[k])
  {
    if InvalidFields(req) == [] && req.platform == PlatformUniswap {
      var address := HexToAddress(req.contractAddress);
      var fetched := FetchDayDataSpec(entries, now, env, RequestPath(req), req.network, address);
      assert k != RequestPath(req);
      if fetched.result.Success? && MetricsOf(fetched.result.value, address, env.parse).Success? {
        ChainSpecWritesOnlyItsKeys(fetched.entries, now, env, clients, req.network, address, MetricsOf(fetched.result.value, address, env.parse).value, k);
      }
    }
  }

  // ----- Optimism and Arbitrum are never served -----

  /** A request that passes the gate for a network the indexer has no subgraph for. */
  predicate Unindexed(req: Request) {
    && InvalidFields(req) == [] && req.platform == PlatformUniswap
    && (req.network == NetworkOptimism || req.network == NetworkArbitrum)
  }

  /** The store invariant: no such request's metrics are cached under its path. */
  ghost predicate NoUnindexedPaths(entries: map<string, Entry>) {
    forall req :: Unindexed(req) ==> RequestPath(req) !in entries
  }

  /** Among requests for one platform with addresses of one length, the path fixes the network and the address. */
  lemma PathDeterminesNetwork(a: Request, b: Request)
    requires a.platform == b.platform && |a.contractAddress| == |b.contractAddress|
    requires RequestPath(a) == RequestPath(b)
    ensures a.network == b.network && a.contractAddress == b.contractAddress
  {
    var p, start := RequestPath(a), 8 + |a.platform|;
    assert |a.network| == |b.network|;
    assert p[start..start + |a.network|] == a.network;
    assert RequestPath(b)[start..start + |b.network|] == b.network;
    assert p[|p| - |a.contractAddress|..] == a.contractAddress;
    assert RequestPath(b)[|p| - |b.contractAddress|..] == b.contractAddress;
  }

  /** A store that has just been created satisfies the invariant. */
  lemma FreshStoreHasNoUnindexedPaths()
    ensures NoUnindexedPaths(map[])
  {
  }

  /** Eviction removes entries only, so it keeps the invariant. */
  lemma EvictionKeepsUnindexedPathsOut(entries: map<string, Entry>, key: string)
    requires NoUnindexedPaths(entries)
    ensures NoUnindexedPaths(map k | k in entries && k != key :: entries[k])
  {
  }

  /** An unindexed request whose path is not cached fails at the indexer and writes nothing. */
  lemma UnindexedFetchFails(entries: map<string, Entry>, now: int, env: Env, clients: set<string>, req: Request)
    requires Unindexed(req) && RequestPath(req) !in entries
    ensures var s := GetPoolSpec(entries, now, env, clients, req);
      && s.entries == entries && s.queries == 0 && s.calls == 0
      && s.result == (if RequestPath(req) in env.faults.getFails then Failure(StoreFailed(RequestPath(req)))
                      else Failure(UnsupportedNetwork))
  {
    ValidatedButUnindexed(req.network);
    FetchUnsupportedExactly(entries, now, env, RequestPath(req), req.network, HexToAddress(req.contractAddress));
  }

  /** Every `GetPool` keeps the invariant. */
  lemma GetPoolKeepsUnindexedPathsOut(entries: map<string, Entry>, now: int, env: Env, clients: set<string>, req: Request)
    requires NoUnindexedPaths(entries)
    ensures NoUnindexedPaths(GetPoolSpec(entries, now, env, clients, req).entries)
  {
    var s := GetPoolSpec(entries, now, env, clients, req);
    if Unindexed(req) {
      UnindexedFetchFails(entries, now, env, clients, req);
    } else {
      forall u | Unindexed(u)
        ensures RequestPath(u) !in s.entries
      {
        var p := RequestPath(u);
        PathOutsideAddressKeys(u);
        if InvalidFields(req) == [] && req.platform == PlatformUniswap {
          var address := HexToAddress(req.contractAddress);
          var fetched := FetchDayDataSpec(entries, now, env, RequestPath(req), req.network, address);
          if p == RequestPath(req) {
            PathDeterminesNetwork(u, req);
            assert false;
          }
          if p in ChainKeys(fetched.entries, now, env, req.network, address) {
            var built := BuildPoolSpec(fetched.entries, now, env, req.network, address);
            NotAnAddressKey(p, address);
            if built.result.Success? {
              NotAnAddressKey(p, built.result.value.tokenLeft);
              NotAnAddressKey(p, built.result.value.tokenRight);
            }
            assert false;
          }
        }
        GetPoolWritesOnlyItsKeys(entries, now, env, clients, req, p);
      }
    }
  }

  /**
   * In a store that keeps the invariant, a request with the four configured clients
   * fails with `unsupported network` exactly when it is a valid uniswap request for
   * Optimism or Arbitrum whose path read does not fault; it then writes, queries and
   * calls nothing.
   */
  lemma UnindexedNetworksAlwaysFail(entries: map<string, Entry>, now: int, env: Env, req: Request)
    requires NoUnindexedPaths(entries)
    ensures var s := GetPoolSpec(entries, now, env, ConfiguredNetworks(), req);
      && (s.result == Failure(UnsupportedNetwork) <==> Unindexed(req) && RequestPath(req) !in env.faults.getFails)
      && (s.result == Failure(UnsupportedNetwork) ==> s.entries == entries && s.queries == 0 && s.calls == 0)
  {
    UnsupportedNetworkExactly(entries, now, env, req);
    if Unindexed(req) {
      UnindexedFetchFails(entries, now, env, ConfiguredNetworks(), req);
    }
  }
}
