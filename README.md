# web3api pool endpoint — a Dafny model

web3api is an HTTP service. It answers `GET /pools/:platform/:network/:contract_address`
with a Uniswap V3 pool's configuration, its two ERC-20 tokens and its daily metrics. The
request is handled in stages:

1. It is validated. The network must be one of four identifiers, and the address must be
   `0x` or `0X` followed by 40 hex digits of either case.
2. Only the `uniswap` platform is served.
3. The pool's daily rows come from a shared cache, keyed by the request path, for one
   minute. On a miss they come from The Graph's indexer.
4. Each row becomes a metric. The three decimal amounts are parsed, and the APR
   `1/TVL × fees × 365`, in percent, is printed with banker's rounding to two places.
   The decimal library's division rounds `1/TVL` half away from zero to 16 places
   before the products.
5. The pool (token0, token1, fee) and each token (name, symbol, decimals) are read from
   the cache under the lower-cased address. On a miss they are read from the chain and
   cached with no expiry.
6. The pool's fee tier is displayed as `fee / 10^4` percent.

The project models that handler, the `network` validator and the indexer client, and proves
what they promise. It covers validation, the cache-aside discipline of each stage, the
number of indexer queries and contract calls, the errors, the metric derivation, and the
APR and fee texts read back as exact numbers.

Modules:

- `EthAddress`: addresses, the `ethereum_address` validator, `HexToAddress`, the EIP-55
  rendering and the lower-cased key.
- `Network`: the network identifiers, `ValidateNetwork` and the networks the handler dials.
- `TheGraph`: the subgraph mapping and the `poolDayDatas` query.
- `DecimalText`: shopspring/decimal's printing, a reader for decimal text, banker's
  rounding and `Div`'s 16-place quotient.
- `Records`: the `Pool`, `Token` and `PoolMetric` records.
- `PoolMetrics`: the APR and fee texts and the per-row metric loop.
- `ResultCache`: the shared cache as a `Store` class over a map with a clock.
- `PoolHandler`:
  - one specification function per stage, each returning the result, the cache
    afterwards and the queries and calls made;
  - the `Handler` class, whose methods are proved to follow those functions exactly.
- `PoolHandlerProperties`: the handler's promises, stated over the specification functions.

Environment oracles are parameters, collected in `Env`:

- The indexer's HTTP round trip.
- The contract calls.
- shopspring's `NewFromString`.
- The keys on which the cache's reads or writes fail.

## Model

| member | source | states |
|---|---|---|
| EthAddress.IsHexAddress | validator/validator_ethereum_address.go:8-16 | Definition of the address validator: `0x` or `0X` and exactly 40 hex digits of either case. Its properties are proved in `HexToAddressIgnoresCase` and `ChecksummedParsesBack`. |
| EthAddress.HexToAddress | handler/handler_pool.go:122 | Definition: byte `i` of the address is read from hex digits `2+2i` and `3+2i` of validated text. `KeyOfParsedText` and `LowerHexParsesBack` relate it to the key form. |
| EthAddress.ToLower | handler/handler_pool.go:148 | ASCII lower-casing: the result has the same length as the input and no capital letters. |
| EthAddress.Checksummed | handler/handler_pool.go:148 | `Address.String()`: `0x` and the 40 digits, each capitalised as the checksum's case pattern says. The result is always 42 characters long. |
| EthAddress.AddressKey | handler/handler_pool.go:148 | Definition of the pool and token cache key: `0x` and the 40 lower-case digits. `KeyIgnoresChecksumCase` proves it equals `strings.ToLower(address.String())`. |
| EthAddress.LowerHexParsesBack | handler/handler_pool.go:148 | The lower-cased key text of an address is valid address text, and it parses back to that address. |
| EthAddress.KeyOfParsedText | common/thegraph/client.go:39 | Parsing validated text and printing the key form is the same as lower-casing the text. |
| EthAddress.HexToAddressIgnoresCase | validator/validator_ethereum_address.go:8-16 | Two validated texts that differ only in letter case parse to the same address. |
| EthAddress.KeyIgnoresChecksumCase | handler/handler_pool.go:148 | Lower-casing the EIP-55 rendering gives the key, whatever case pattern the checksum picks. |
| EthAddress.ChecksummedParsesBack | handler/handler_pool.go:168-171 | The EIP-55 rendering is valid address text and parses back to the same address. |
| EthAddress.KeyStartsWithZero | handler/handler_pool.go:193 | Every address key begins with `0`, so no key can equal a request path. |
| Network.ValidateNetwork | validator/validator_network.go:8-15 | Definition of the `network` validator: exact match against the four identifiers. The lemmas below state what it accepts. |
| Network.ConfiguredNetworks | handler/handler.go:35-46 | The handler dials exactly four distinct networks. |
| Network.ValidatedNetworksAreConfigured | validator/validator_network.go:8-15 | The validator accepts a network exactly when the handler holds a client for it. |
| Network.CaseVariantRejected | validator/validator_network.go:9-10 | Matching is exact: a case variant of an accepted identifier is rejected. |
| Network.AcceptedNetworksAreLowerCase | validator/validator_network.go:9-10 | Every accepted identifier is its own lower-case form. |
| TheGraph.SubgraphName | common/thegraph/client.go:23-30 | Definition of the network-to-subgraph switch. `SubgraphNames` states the mapping in full. |
| TheGraph.NewQuery | common/thegraph/client.go:23-32 | The query fails exactly when the network has no subgraph, and then with `unsupported network`. Otherwise its URL is the endpoint followed by the subgraph name. |
| TheGraph.GetUniswapPoolDayDataList | common/thegraph/client.go:20-46 | Without a subgraph the result is `unsupported network`. Otherwise it is the rows the indexer returns, unchanged and in order, or the indexer's error. |
| TheGraph.SubgraphNames | common/thegraph/client.go:23-30 | Ethereum and Polygon map to their two subgraphs, and no other network has one. |
| TheGraph.ValidatedButUnindexed | common/thegraph/client.go:23-30 | A network passes the validator but has no subgraph exactly when it is Optimism or Arbitrum. |
| TheGraph.QueryIsFixed | common/thegraph/client.go:34-42 | The query asks for 1000 rows from offset 0 with `date_gt` 0, newest first, with subgraph errors allowed. Its pool variable is the lower-cased EIP-55 text of the address. |
| TheGraph.QueryIgnoresAddressCase | common/thegraph/client.go:39 | Request addresses that differ only in case send the same query. |
| DecimalText.LayoutOf | handler/handler_pool.go:111 | shopspring's `string(trimTrailingZeros)` layout: the integer value when the exponent is not negative. Otherwise the digits of the magnitude with the point placed `-exponent` places from the right, zero-padded, with trailing fraction zeros optionally dropped. `LayoutOfDenotes` proves the layout has the decimal's value. |
| DecimalText.Render | handler/handler_pool.go:134 | `String()` (trimmed) or the fixed form: the sign, the integer digits, then the point and fraction when there is one. The three `Render…` lemmas below state its properties. |
| DecimalText.RenderReadsBack | handler/handler_pool.go:111 | Both printed forms of a decimal read back to exactly its value. |
| DecimalText.RenderFixedDigits | handler/handler_pool.go:111 | The fixed form with exponent `-k` has exactly `k` fractional digits. |
| DecimalText.RenderTrimmedIsShortest | handler/handler_pool.go:134 | The trimmed form either has no point or has a fraction ending in a non-zero digit. |
| DecimalText.RoundHalfEven | handler/handler_pool.go:111 | The result is an integer nearest the input, and the even one at a tie. |
| DecimalText.NearestTiesToEvenUnique | handler/handler_pool.go:111 | At most one integer satisfies that rounding rule, so the rounding is fully determined. |
| DecimalText.RoundHalfAwayFromZero | handler/handler_pool.go:111 | The result is an integer nearest the input, and the one farther from zero at a tie: the rounding `Div` applies to its quotient. |
| DecimalText.NearestTiesAwayFromZeroUnique | handler/handler_pool.go:111 | At most one integer satisfies that rounding rule, so `Div`'s quotient is fully determined. |
| DecimalText.Div | handler/handler_pool.go:111 | Definition of `decimal.NewFromInt(1).Div(TVL)`: the exact quotient times 10^16, rounded half away from zero, with exponent −16. Its contract is stated by `DivWithinHalfUnit`. |
| DecimalText.DivWithinHalfUnit | handler/handler_pool.go:111 | `Div`'s quotient has exponent −16, its coefficient is the exact quotient times 10^16 rounded half away from zero, and it is within half a unit of the 16th place of the exact quotient. |
| PoolMetrics.AnnualPercentage | handler/handler_pool.go:110-111 | Definition: `Div(1, TVL) × fees × 365`, shifted two places. `1 / TVL` is rounded to 16 places as `Div` rounds it; the products are exact, and `365 / 1` is exactly 365. |
| PoolMetrics.AnnualPercentageError | handler/handler_pool.go:111 | Against the exact `fees / TVL × 36500`, the percentage differs by at most `0.5 × 10^-16 × |fees| × 36500`. |
| PoolMetrics.AprVanishesForLargeTvl | handler/handler_pool.go:107-111 | When `|TVL| > 2 × 10^16`, `Div` rounds `1 / TVL` to zero. Any non-zero fees then give the percentage 0 and the text `0.00%`. |
| PoolMetrics.PercentText | handler/handler_pool.go:111 | Definition of `.StringFixedBank(2)` followed by `%`: the percentage rounded half to even to hundredths, printed with exactly two fractional digits, then `%`. Its contract is stated by `PercentTextReadsBack`. |
| PoolMetrics.PercentTextReadsBack | handler/handler_pool.go:111 | `StringFixedBank(2)` of any percentage, followed by `%`, has two fractional digits and reads back to the percentage rounded half to even to hundredths, within 0.005 of it. |
| PoolMetrics.AprText | handler/handler_pool.go:107-112 | Definition of the APR text. `AprZeroExactly` and `AprRoundsToHundredths` state its meaning. |
| PoolMetrics.FeeText | handler/handler_pool.go:134 | Definition of the fee text. `FeeTextDenotes` states its meaning. |
| PoolMetrics.AprZeroExactly | handler/handler_pool.go:107-112 | The APR text is `0%` exactly when the TVL or the fees are zero. |
| PoolMetrics.AprRoundsToHundredths | handler/handler_pool.go:109-111 | Otherwise the text ends in `%` and has two fractional digits. It reads back to the banker's rounding of the percentage to hundredths, which is within 0.005 of it. |
| PoolMetrics.FeeTextDenotes | handler/handler_pool.go:134 | The fee text ends in `%` and reads back to `fee / 10^4`, with no trailing fractional zeros. |
| PoolMetrics.AprExample | handler/handler_pool.go:111 | A TVL of 100 and fees of 1 give `365.00%`. |
| PoolMetrics.FeeExample | handler/handler_pool.go:134 | Fee tier 3000 is shown as `0.3%`. |
| PoolMetrics.DeriveMetric | handler/handler_pool.go:89-112 | A row yields a metric exactly when all three amounts parse. The metric carries the row's date, the requested address, the three parsed amounts and the APR text. Otherwise the error is `MalformedDecimal` of the first amount that does not parse, in the order TVL, volume, fees. |
| PoolMetrics.MetricsOf | handler/handler_pool.go:87-115 | Definition of the per-row loop's outcome: the metrics of the rows in order, or the first failing row's error. The lemmas below characterise it. |
| PoolMetrics.MetricsOfRowByRow | handler/handler_pool.go:87-115 | The metrics exist exactly when every row derives. There is then one metric per row, in row order. |
| PoolMetrics.MetricsOfFirstFailure | handler/handler_pool.go:95-105 | A failure carries the error of the first row that does not derive. |
| PoolMetrics.MetricsOfFailureExtends | handler/handler_pool.go:89-115 | Once a prefix of the rows fails, the whole list fails with the same error. |
| PoolMetrics.RowFailureStops | handler/handler_pool.go:95-105 | When every row before row `i` derives and row `i` does not, the result is row `i`'s error. |
| PoolMetrics.DeriveMetrics | handler/handler_pool.go:87-115 | The loop returns exactly `MetricsOf` of the rows. |
| ResultCache.Live | handler/handler_pool.go:58 | An entry is served while the clock has not passed its expiry; an entry with no expiry is always served. |
| ResultCache.Read | handler/handler_pool.go:58-61 | Definition of a cache read: the store's error for a failing key, the value of a live entry, or not found. |
| ResultCache.Written | handler/handler_pool.go:77 | Definition of a cache write: a refused write changes nothing; otherwise the key maps to the value with its expiry. |
| ResultCache.ReadAfterWrite | handler/handler_pool.go:58-79 | A value written is read back at the same instant unless that key's read or write fails. |
| ResultCache.WriteIsolated | handler/handler_pool.go:193 | A write under one key changes no read of another key. |
| ResultCache.ExpiryWindow | handler/handler_pool.go:77 | A value written with a TTL is served up to and including its expiry and is a miss afterwards. Without a TTL it is served forever. |
| ResultCache.Store.constructor | handler/handler.go:24-33 | The store starts empty at the given instant. |
| ResultCache.Store.Get | handler/handler_pool.go:58-61 | The result is the live value, not found, or the store's error, as `Read` defines. A hit returns the stored value. |
| ResultCache.Store.Set | handler/handler_pool.go:77-79 | The write succeeds exactly when the key's writes do not fail. The entries become `Written` of the old entries. |
| ResultCache.Store.Evict | handler/handler.go:24-33 | The cache's eviction removes exactly that key, and a read of it then misses. |
| ResultCache.Store.Advance | handler/handler_pool.go:77 | The clock moves forward by the elapsed time. |
| PoolHandler.RequestPath | handler/handler_pool.go:58 | The metrics cache key, `/pools/` followed by the three path segments. It is rebuilt from the bound fields; see Left out. |
| PoolHandler.FetchDayDataSpec | handler/handler_pool.go:58-85 | Definition of the metrics cache-aside read, proved about in `MetricsHitSkipsIndexer`, `MetricsMissStoresForOneMinute`, `FetchFailureWritesNothing` and `FetchUnsupportedExactly`. |
| PoolHandler.BuildPoolSpec | handler/handler_pool.go:147-198 | Definition of `buildPool`, proved about in `BuildPoolCacheAside` and `PoolBuildFrame`. |
| PoolHandler.BuildTokenSpec | handler/handler_pool.go:200-248 | Definition of `buildToken`, proved about in `BuildTokenCacheAside` and `TokenBuildFrame`. |
| PoolHandler.CompleteSpec | handler/handler_pool.go:134-142 | Definition of the fee text and the two token reads, in that order. |
| PoolHandler.ChainSpec | handler/handler_pool.go:117-142 | Definition of the client lookup, the pool read and then `CompleteSpec`. |
| PoolHandler.GetPoolSpec | handler/handler_pool.go:43-145 | Definition of the whole handler: validation, the platform check, the metrics, then `ChainSpec`. The `PoolHandlerProperties` lemmas state its behaviour. |
| PoolHandler.InvalidFields | handler/handler_pool.go:29-33 | `Network` is reported exactly when the network validator rejects the field. `ContractAddress` is reported exactly when the address validator rejects it. |
| PoolHandler.Handler.constructor | handler/handler.go:18-46 | The handler holds a client for each of the four networks, and its counters start at zero. |
| PoolHandler.Handler.BuildPool | handler/handler_pool.go:147-198 | The result, the cache afterwards and the contract calls made are exactly those of `BuildPoolSpec`, with no indexer query. |
| PoolHandler.Handler.BuildToken | handler/handler_pool.go:200-248 | The same, against `BuildTokenSpec`. |
| PoolHandler.Handler.FetchDayData | handler/handler_pool.go:58-85 | The result, the cache afterwards and the indexer queries made are exactly those of `FetchDayDataSpec`, with no contract call. |
| PoolHandler.Handler.GetPool | handler/handler_pool.go:43-145 | The result, the cache afterwards, the queries and the calls are exactly those of `GetPoolSpec`. |
| PoolHandlerProperties.BuildPoolCacheAside | handler/handler_pool.go:147-198 | Keyed by the lower-cased address, with no indexer query: (1) a hit returns the stored pool with no call and no write; (2) a failure leaves the cache unchanged; (3) a miss that succeeds makes three calls and stores `Pool(address, token0, token1, fee)` with no expiry; (4) only that key may change; (5) success leaves the pool stored. |
| PoolHandlerProperties.BuildTokenCacheAside | handler/handler_pool.go:200-248 | The same for tokens: a successful miss makes three calls and stores `Token(name, symbol, decimals, address)`. |
| PoolHandlerProperties.PoolBuildFrame | handler/handler_pool.go:193 | `buildPool` removes nothing and changes no key except its own. |
| PoolHandlerProperties.TokenBuildFrame | handler/handler_pool.go:243 | `buildToken` removes nothing and changes no key except its own. |
| PoolHandlerProperties.ChainSpecWritesOnlyItsKeys | handler/handler_pool.go:117-142 | The pool-and-token stage removes no entry. It changes nothing except the pool's and its two tokens' address keys. |
| PoolHandlerProperties.ChainSpecKeeps | handler/handler_pool.go:117-142 | After the metrics, a key that is not an address key is neither added, removed nor changed. |
| PoolHandlerProperties.MetricsErrorIsMalformedDecimal | handler/handler_pool.go:95-105 | Deriving the metrics can only fail with a malformed-decimal error. |
| PoolHandlerProperties.ChainErrorIsDownstream | handler/handler_pool.go:117-142 | The client lookup, the pool and the tokens fail only with downstream errors. |
| PoolHandlerProperties.ValidatedErrorsAreDownstream | handler/handler_pool.go:58-142 | Once the request is validated and the platform accepted, every error is a store, decode, unsupported-network, indexer, contract-call or malformed-decimal error. |
| PoolHandlerProperties.GatingBeforeAnyIO | handler/handler_pool.go:50-56 | A validation error occurs exactly when a field is invalid. `unsupported platform` occurs exactly when the fields are valid and the platform is not `uniswap`. Both return before any cache access, query or call. |
| PoolHandlerProperties.StoreReadErrorPropagates | handler/handler_pool.go:58-61 | A failed metrics read is returned as is, with nothing written, queried or called. |
| PoolHandlerProperties.MetricsHitSkipsIndexer | handler/handler_pool.go:58-85 | On a metrics hit there is no query. A bad stored row aborts with nothing changed, and a response carries the stored rows' metrics. |
| PoolHandlerProperties.MetricsMissStoresForOneMinute | handler/handler_pool.go:63-79 | On a miss for an indexed network, one query is made. Its rows stay stored under the path, expiring one minute later, whatever happens afterwards. |
| PoolHandlerProperties.FetchFailureWritesNothing | handler/handler_pool.go:68-71 | An indexer failure is returned with nothing written and no contract call. One query was made if a subgraph exists. |
| PoolHandlerProperties.FetchUnsupportedExactly | common/thegraph/client.go:23-30 | The metrics fetch fails with `unsupported network` exactly on a miss for a network with no subgraph. It then makes no query and no write. |
| PoolHandlerProperties.ChainSpecSupported | handler/handler_pool.go:117-142 | Once the network has a client, the pool and token stages never report `unsupported network`. |
| PoolHandlerProperties.UnsupportedNetworkExactly | handler/handler_pool.go:117-120 | With the four configured clients, `unsupported network` occurs exactly for valid Optimism or Arbitrum requests whose metrics are not cached. It comes with no write, query or call. |
| PoolHandlerProperties.MalformedRowAborts | handler/handler_pool.go:95-105 | The first row with an unparsable amount aborts the request with that amount's error. No contract is called, and the fetched rows stay cached. |
| PoolHandlerProperties.ResponseParts | handler/handler_pool.go:122-142 | A response holds the rows' metrics, the requested address and the pool's fee text. |
| PoolHandlerProperties.OneMetricPerRow | handler/handler_pool.go:89-115 | A response has one metric per indexer row, in order. Each metric is derived from its row and carries the row's date and the requested address. |
| PoolHandlerProperties.CaseVariantsShareQueryNotEntry | handler/handler_pool.go:58 | Addresses that differ only in case send the same indexer query but are cached under different paths. |
| PoolHandlerProperties.ChainSpecRepeat | handler/handler_pool.go:147-248 | After a successful pool-and-token stage, repeating it returns the same result with no call and no write, as long as the entries under its own three keys are live. |
| PoolHandlerProperties.RepeatServedFromCache | handler/handler_pool.go:43-145 | A successful request, repeated while the entries under its own four keys are live, returns the same response with no query, no call and no write. Other entries may have expired. |
| PoolHandlerProperties.GetPoolWritesOnlyItsKeys | handler/handler_pool.go:43-145 | A request removes no entry. It changes only the entries under its own keys: its path and the pool's and two tokens' address keys. |
| PoolHandlerProperties.PathDeterminesNetwork | handler/handler_pool.go:58 | For one platform and addresses of one length, equal request paths have equal networks and equal addresses. |
| PoolHandlerProperties.FreshStoreHasNoUnindexedPaths | handler/handler.go:24-33 | A new, empty store caches no metrics for a valid uniswap Optimism or Arbitrum request. |
| PoolHandlerProperties.EvictionKeepsUnindexedPathsOut | handler/handler.go:24-33 | Eviction keeps that invariant. |
| PoolHandlerProperties.UnindexedFetchFails | common/thegraph/client.go:23-30 | A valid uniswap Optimism or Arbitrum request whose path is not cached fails with the store's read error or with `unsupported network`. It writes, queries and calls nothing. |
| PoolHandlerProperties.GetPoolKeepsUnindexedPathsOut | handler/handler_pool.go:58-85 | Every request keeps the invariant: no Optimism or Arbitrum metrics are ever written under a request path. |
| PoolHandlerProperties.UnindexedNetworksAlwaysFail | handler/handler_pool.go:58-120 | In a store that keeps the invariant, with the four configured clients, `unsupported network` occurs exactly for valid uniswap Optimism or Arbitrum requests whose path read does not fault. It comes with no write, query or call. |

## Left out

- JSON encoding of cached values: the cache holds typed payloads, and decoding a value of
  another kind fails.
- BuildPoolSpec: Go's lenient `json.Unmarshal` differs from the model here.
  - In Go, a token's JSON found under a pool's key decodes into a `Pool`, with a zero
    `token_left`, a zero `token_right` and a nil `fee`.
  - In the model, that hit is a decode error.
- BuildTokenSpec: in Go, a pool's JSON decodes into a `Token` with empty name and symbol;
  in the model that hit is a decode error.
- JSON encoding of the response: the RFC 3339 timestamp, the EIP-55 address text,
  `null` versus `[]` for an empty metrics list, and the pretty printing.
- Keccak-256, which picks the EIP-55 letter case: the case pattern is a parameter, and
  the lemmas hold for every pattern.
- `buildPool` and `buildToken` store `HexToAddress(NewMixedcaseAddress(a).String())` as
  the contract address. The model stores `a`. The text's ` [chksum ok]` suffix lies
  beyond the 40 hex digits that `HexToAddress` reads, so the two are the same address.
- `decimal.NewFromString` is a parameter (`Env.parse`). Its grammar is not modelled;
  every property holds for any parser.
- `Shift(2)` and `Shift(-4)` are folded into the exponent of the decimal that is printed.
- ristretto internals are not modelled:
  - admission and cost-based eviction appear only as `Store.Evict`;
  - an asynchronous `Set` is modelled as immediately visible;
  - a dropped `Set` is modelled as a write failure on that key.
- Concurrent requests sharing the cache are not modelled.
- A request takes no time on the store's clock; only `Store.Advance` moves it. The
  metrics entry therefore expires at `now + MetricsTtl`, counted from the start of the
  request. Go's `Set` reads `time.Now()` after the indexer round trip, so the entry
  lives slightly longer there.
- `ethclient.Dial` at start-up, the Postgres connection, logging and the middleware are
  not modelled.
- The error handler's `500` JSON envelope is not modelled; errors are returned as values.
- The model assumes the bound request fields equal the three path segments. echo's
  `c.Bind` also decodes a non-empty request body on this GET, matching JSON field names
  case-insensitively. Such a body can make `Bind` fail, or it can override `Platform`,
  `Network` or `ContractAddress`. The metrics key `URL.Path` would then disagree with
  the fields used for the query, the client lookup and the contract reads. That case is
  not modelled.
- The binding constructors `NewPoolV3` and `NewERC20` are not modelled. They only wrap
  the address and client, and their errors are folded into the contract-call oracle.
- The cache key `URL.Path` is rebuilt from the three path parameters. Percent-decoding
  of the raw path is not modelled.
- `NetworkOptimism` and `NetworkArbitrum` are referenced, but `common/ethereum/network.go`
  declares only Ethereum and Polygon. The model takes them to be `optimism` and
  `arbitrum`. Those are the JSON tags of the Optimism and Arbitrum endpoints in
  `common/ethereum/config.go:10-11`, and `main.go:46-50` configures an RPC endpoint for
  each of the two networks.
