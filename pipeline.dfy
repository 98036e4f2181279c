/**
 * The tail of the example program's main (examples/main.go): decode the swap
 * API's response, then send the transactions; any error ends the program with a
 * panic. Fetching the quote and the swap response, loading the key file and the
 * environment are outside this model: the response and the wallet are inputs.
 */
module Pipeline {
  import opened Wrappers
  import opened Solana
  import opened Decoding
  import opened Sending

  /** How main ends: normally, or by panicking on an error or inside the transaction decoder. */
  datatype Exit = Completed | DecodeFailed(error: Error) | DecoderPanicked(role: Role) | SendFailed(error: Error)

  /** What main does with a swap response: how it ends, and the calls (blockhash fetches, signings, sends) it made. */
  function Swap(sr: SwapResponse, codec: Codec, wallet: PrivateKey, ed25519: (Message, PrivateKey) -> Signature,
                cluster: Cluster): (Exit, seq<Call>)
  {
    match DecodeResponse(sr, codec)
    case DecodeError(e) => (DecodeFailed(e), [])
    case DecodePanic(r) => (DecoderPanicked(r), [])
    case Decoded(txs) =>
      var o := Send(txs, wallet, ed25519, cluster);
      (if o.err.None? then Completed else SendFailed(o.err.value), o.calls)
  }

  /** main, from the swap response on: decode, then send, panicking on the first error. */
  method DecodeAndSend(sr: SwapResponse, codec: Codec, wallet: PrivateKey, ed25519: (Message, PrivateKey) -> Signature,
                       cluster: Cluster)
    returns (exit: Exit, ghost calls: seq<Call>)
    ensures exit == Swap(sr, codec, wallet, ed25519, cluster).0
    ensures (exit, calls) == Swap(sr, codec, wallet, ed25519, cluster)
  {
    var decoded, _ := Decode(sr, codec);
    match decoded
    case DecodeError(e) =>
      exit, calls := DecodeFailed(e), [];
    case DecodePanic(r) =>
      exit, calls := DecoderPanicked(r), [];
    case Decoded(txs) =>
      var a := new Transaction[|txs|](j requires 0 <= j < |txs| => txs[j]);
      assert a[..] == txs;
      var err;
      ghost var confirmed;
      err, calls, confirmed := SendTransactions(a, wallet, ed25519, cluster);
      exit := if err.None? then Completed else SendFailed(err.value);
  }

  /**
   * A present payload that does not decode stops main before it touches the
   * cluster: the program ends with a decode error or a decoder panic, even if
   * earlier payloads had decoded, having made no call; and nothing the cluster
   * would answer (the websocket connection included) changes how it ends.
   */
  lemma NoNetworkAfterDecodeFailure(sr: SwapResponse, codec: Codec, wallet: PrivateKey,
                                    ed25519: (Message, PrivateKey) -> Signature, cluster: Cluster, other: Cluster, r: Role)
    requires Payload(sr, r) != "" && !DecodePayload(sr, r, codec).Parsed?
    ensures Swap(sr, codec, wallet, ed25519, cluster).1 == []
    ensures Swap(sr, codec, wallet, ed25519, cluster) == Swap(sr, codec, wallet, ed25519, other)
    ensures Swap(sr, codec, wallet, ed25519, cluster).0.DecodeFailed? || Swap(sr, codec, wallet, ed25519, cluster).0.DecoderPanicked?
  {
    var p := Present(sr, RoleOrder);
    RolesInOrder(sr);
    var k :| 0 <= k < |p| && p[k] == r;
    DecodedIff(sr, p, codec);
  }

  /**
   * main completes exactly when every present payload decodes and every
   * resulting transaction, in role order, is sent and confirmed; it then made
   * three calls per present payload.
   */
  lemma CompletesIff(sr: SwapResponse, codec: Codec, wallet: PrivateKey,
                     ed25519: (Message, PrivateKey) -> Signature, cluster: Cluster)
    ensures Swap(sr, codec, wallet, ed25519, cluster).0 == Completed <==>
      && DecodeResponse(sr, codec).Decoded?
      && cluster.connect.None?
      && Send(DecodeResponse(sr, codec).txs, wallet, ed25519, cluster).confirmed == |Present(sr, RoleOrder)|
    ensures Swap(sr, codec, wallet, ed25519, cluster).0 == Completed ==>
      |Swap(sr, codec, wallet, ed25519, cluster).1| == 3 * |Present(sr, RoleOrder)|
  {
    var p := Present(sr, RoleOrder);
    DecodedIff(sr, p, codec);
    if DecodeResponse(sr, codec).Decoded? {
      var txs := DecodeResponse(sr, codec).txs;
      StopsAtFirstFailure(txs, wallet, ed25519, cluster);
      RunsRoundsInOrder(txs, wallet, ed25519, cluster);
    }
  }
}
