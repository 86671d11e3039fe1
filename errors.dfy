/**
 * The errors a pool lookup can end with. Every one of them aborts the request;
 * the HTTP layer turns each into the same 500 envelope, which is not modelled.
 */
module Errors {

  datatype Error =
    | InvalidRequest(fields: seq<string>)  // struct validation: the names of the fields whose tag failed
    | UnsupportedPlatform                  // ErrorUnsupportedPlatform
    | UnsupportedNetwork                   // ethereum.ErrorUnsupportedNetwork
    | IndexerFailed(message: string)       // the GraphQL query returned an error
    | ContractCallFailed(message: string)  // a read-only contract call returned an error
    | StoreFailed(key: string)             // the cache store failed on this key (not a miss)
    | DecodeFailed(key: string)            // the bytes under this key do not decode to the expected record
    | MalformedDecimal(text: string)       // decimal.NewFromString rejected this text
}
