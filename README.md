# Swap transaction pipeline of jup-ag, modelled in Dafny

This project models the transaction pipeline of the jup-ag Go client's example
program, `examples/main.go`. After the swap API has answered, the program does two things:

* **decode** takes the three optional base64 payloads of a `SwapResponse`
  (setup, swap, cleanup) in that fixed order. It skips the empty ones and
  base64-decodes each of the others, then parses the bytes into a Solana
  transaction. The first payload that is not valid base64 makes the whole call
  fail. A payload that is valid base64 but not a transaction makes the binary
  decoder panic.
* **sendTransactions** opens a websocket connection and then handles the
  transactions strictly in order. For each one it fetches a recent blockhash at
  "confirmed" commitment and writes it into its own copy of the transaction. It
  then clears the signatures and signs with a key selector that returns the
  wallet only for the wallet's own public key. Finally it sends the transaction
  with preflight checks at "confirmed" commitment, and waits for the client
  library to report it confirmed. The first error is
  returned at once: later transactions are never touched and confirmed ones are
  not undone.

Modules:

* `Wrappers` (wrappers.dfy): `Option` and `Result`.
* `Solana` (solana.dfy): keys, messages, transactions and errors of the Solana
  client library, plus its `Transaction.Sign`. `Sign` asks the selector for the
  key of every required signer, in order, and stops with `SignerKeyNotFound` at
  the first key the selector does not supply.
* `Decoding` (decode.dfy): the response, the roles, `Decode` (the loop of
  decode), and the function `DecodeResponse` that specifies it.
* `Sending` (send.dfy): the cluster oracle, the ghost call trace, the selector
  `SelectKey`, `SendTransactions` (the loop) and `HandleTransaction` (one
  iteration). The functions `Handle`, `Attempt` and `Send` specify them.
* `Pipeline` (pipeline.dfy): main's decode-then-send sequence.

External code is passed in as function-valued parameters and never
implemented:

* `Codec.base64`: base64 `DecodeString`.
* `Codec.unmarshal`: the binary transaction decoder. `None` means it panicked.
* `Cluster.connect`: the result of the websocket connection.
* `Cluster.recentBlockhash`: `GetRecentBlockhash`.
* `Cluster.sendAndConfirm`: send and confirm.
* `ed25519`: the signature over a message.

The cluster's replies are functions of the position of the transaction being
handled. The run is deterministic given those replies, so this covers every
behaviour of a cluster that may answer differently on each call.

Every call the loop makes is recorded in a ghost trace of `Call` values: the
blockhash fetch, the signing, and the send and confirm. Each entry holds the
transaction index, the arguments and the reply. A ghost count `confirmed`
records how many transactions were confirmed. The Go function returns only the
error, so neither of these is part of the real result.

The selector closure of sendTransactions is `SelectKey`, and `Selector(wallet)` is
the closure itself. The transactions reach `SendTransactions` as an array
without a `modifies` clause. Every write goes to the per-iteration copy, just as
Go's `range` copies each element, so the caller's slice is provably unchanged.

## Model

| member | source | states |
|---|---|---|
| `Decoding.Decode` | examples/main.go:68-89 | returns exactly the fail-fast decoding of the present payloads in role order (`DecodeResponse`); the ghost `tried` is exactly the roles whose payload was handed to the base64 decoder, which stops at the first failure |
| `Decoding.RolesInOrder` | examples/main.go:69-77 | the roles decode works on are exactly those with a non-empty payload, at most three, in strictly increasing role order setup < swap < cleanup |
| `Decoding.DecodedIff` | examples/main.go:76-88 | decoding succeeds if and only if every present payload is valid base64 and parses; the result then has one transaction per present payload, the j-th parsed from the j-th present payload |
| `Decoding.DecodeErrorIff` | examples/main.go:78-81 | decode returns base64 error e if and only if some present payload fails base64 with e and every present payload before it decoded; earlier successes are discarded |
| `Decoding.DecodePanicIff` | examples/main.go:76-84 | decode panics on role r if and only if r's payload is present and valid base64 but not a transaction, and every present payload before it decoded |
| `Decoding.NeverDecodesEmpty` | examples/main.go:76-78 | no empty payload ever reaches the base64 decoder; on success every present payload did |
| `Sending.SendTransactions` | examples/main.go:91-136 | the error returned, the ghost trace and the ghost count are exactly those of `Send`: no call if the websocket connection fails, otherwise the transactions are handled in index order until the first error. The array is never written |
| `Sending.HandleTransaction` | examples/main.go:100-134 | one iteration: fetch a blockhash, overwrite it, clear the signatures, sign, send and confirm, returning the first error; its result and calls are exactly `Handle` |
| `Sending.SignWithWallet` | examples/main.go:108-119 | signing with the wallet's selector succeeds iff every required signer is the wallet's public key. It then appends one signature per required signer, all by the wallet over the message, and leaves the message as it was. Otherwise it fails with SignerKeyNotFound for the first foreign signer. No other key is ever used |
| `Sending.RoundSignsFreshMessage` | examples/main.go:101-128 | within one iteration the blockhash is fetched at "confirmed" before signing. What is signed is the caller's transaction with that blockhash and no signatures. What is sent, with preflight on at "confirmed" commitment, is what Sign returned |
| `Sending.RunsRoundsInOrder` | examples/main.go:93-135 | a successful run is the successful rounds of transactions 0..n-1 in order. A failed run is the successful rounds of the first `confirmed` transactions, then the failing round of transaction `confirmed`, whose error is the one returned. A failed connection makes no call |
| `Sending.CallsInOrder` | examples/main.go:100-134 | the p-th call is stage p mod 3 (fetch, sign, send) of transaction p div 3: each stage of transaction i finishes before any stage of transaction i+1 |
| `Sending.ConfirmedBeforeNext` | examples/main.go:121-134 | any call for transaction i > 0 comes after a call that sent transaction i-1 and had it confirmed |
| `Sending.StopsAtFirstFailure` | examples/main.go:93-135 | every call but the last succeeded, and a failed run's last call failed with the returned error. Nothing after the failing transaction is touched, and `confirmed` is that transaction's index. A successful run confirmed every transaction, with exactly one send and confirm each |
| `Sending.SendsFreshlySigned` | examples/main.go:101-128 | every transaction sent is caller's transaction i carrying the blockhash fetched for it two calls before, with its old signatures dropped and one wallet signature per required signer, exactly as Sign returned it |
| `Pipeline.DecodeAndSend` | examples/main.go:57-65 | main decodes, then sends only a successfully decoded list; its exit and its calls (blockhash fetches, signings, sends) are exactly `Swap` |
| `Pipeline.NoNetworkAfterDecodeFailure` | examples/main.go:57-62 | if any present payload does not decode, main stops with a decode error or decoder panic, makes no call, and ends the same whatever the cluster would answer, its websocket connection included |
| `Pipeline.CompletesIff` | examples/main.go:57-65 | main completes iff every present payload decodes, the connection succeeds and every transaction is confirmed; it then made three calls per present payload |

## Left out

- The quote and swap-transaction requests, the price and route-map requests, the JSON types (client.go) and the HTTP script of the top-level main.go: they are REST plumbing and floating-point amount formatting.
- Loading the key file and `.env`, `os.Getenv`, and all printing: these are I/O. The wallet and the swap response are inputs.
- The internals of base64 decoding, the binary transaction decoder, message serialisation, ed25519, and the RPC and websocket clients: these are foreign code, passed in as the oracles above. Sign's "unable to encode message" and "failed to sign" errors are not modelled, because the oracle `ed25519` is total.
- The Solana client library's `Transaction.Sign` is not part of this model's source. `Solana.Sign` follows its documented behaviour.
- A message's header and account-key encoding are abstracted to its list of required signers. The instructions are an opaque byte string.
- The commitment level that send-and-confirm waits for is chosen inside the client library, which is not part of this model: the model records only the preflight commitment passed at examples/main.go:127 and treats "confirmed" as whatever the oracle reports.
- The websocket connection (examples/main.go:93) is not an entry of the call trace: its failure shows only as the returned error with an empty trace.
- Contexts, timeouts and cancellation of the RPC calls are not modelled: a timeout is just one more error reply.
- examples/main.go:57 passes the `*SwapResponse` pointer returned by `GetSwapTransactions` to `decode`, whose parameter is a `SwapResponse` value. The model takes the value.
- The model follows what the code does, not a richer design:
  - Signing fails whenever some required signer is not the wallet's key, and it succeeds with no signatures when the message requires none. It does not fail merely because the wallet is absent from the signers.
  - Only the raw error is returned. There is no failing role or stage, and there are no per-transaction results or "not attempted" markers. The model keeps those facts only in the ghost trace and count.
  - Decoded signatures are never checked for being empty. They are overwritten.
