/**
 * Network identifiers, the `network` request validator and the set of
 * networks the handler dials an RPC connection for at start-up.
 */
module Network {
  import opened EthAddress

  const NetworkEthereum := "ethereum"
  const NetworkPolygon := "polygon"
  // Referenced by the validator and the start-up code but not declared beside the
  // two above; taken to be the JSON tags of the Optimism and Arbitrum endpoints in
  // the RPC configuration (common/ethereum/config.go:10-11, main.go:46-50).
  const NetworkOptimism := "optimism"
  const NetworkArbitrum := "arbitrum"

  /** The `network` validator: exact equality with one of the four identifiers. */
  predicate ValidateNetwork(field: string) {
    match field
    case "ethereum" => true
    case "polygon" => true
    case "optimism" => true
    case "arbitrum" => true
    case _ => false
  }

  /** The keys of the handler's client map: one RPC connection per configured network. */
  function ConfiguredNetworks(): (s: set<string>)
    ensures |s| == 4
  {
    var s := {NetworkEthereum, NetworkPolygon, NetworkOptimism, NetworkArbitrum};
    assert NetworkEthereum !in {NetworkPolygon, NetworkOptimism, NetworkArbitrum};
    assert NetworkPolygon !in {NetworkOptimism, NetworkArbitrum};
    s
  }

  /** The validator accepts exactly the networks the handler holds a connection for. */
  lemma ValidatedNetworksAreConfigured(field: string)
    ensures ValidateNetwork(field) <==> field in ConfiguredNetworks()
  {
  }

  lemma {:induction false} LowerTextIsFixed(s: string)
    requires forall i :: 0 <= i < |s| ==> !IsUpper(s[i])
    ensures ToLower(s) == s
  {
    forall i | 0 <= i < |s| ensures ToLower(s)[i] == s[i] {
    }
  }

  /**
   * Matching is case-sensitive: a variant of an accepted identifier that differs
   * from it in letter case only (such as `Ethereum`) is rejected.
   */
  lemma CaseVariantRejected(field: string)
    requires ValidateNetwork(ToLower(field))
    requires field != ToLower(field)
    ensures !ValidateNetwork(field)
  {
    if ValidateNetwork(field) {
      assert forall i :: 0 <= i < |field| ==> !IsUpper(field[i]);
      LowerTextIsFixed(field);
      assert false;
    }
  }

  /** Every accepted identifier is already lower-case. */
  lemma AcceptedNetworksAreLowerCase(field: string)
    requires ValidateNetwork(field)
    ensures ToLower(field) == field
  {
    LowerTextIsFixed(field);
  }
}
