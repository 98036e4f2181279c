/**
 * Submission of the decoded transactions (examples/main.go, sendTransactions):
 * strictly in order, each transaction gets a freshly fetched blockhash, its
 * signatures are cleared, it is signed with the wallet's key, and it is sent and
 * confirmed before the next one is touched; the first error ends the run.
 *
 * The cluster is an oracle: its replies are given as functions of the position
 * of the transaction being handled. The run is deterministic given those replies,
 * so this is as general as letting each reply depend on every earlier call.
 */
module Sending {
  import opened Wrappers
  import opened Solana

  /** What the RPC and websocket endpoints answer. */
  datatype Cluster = Cluster(
    connect: Option<Error>,                                              // ws.Connect: the error, if the connection fails
    recentBlockhash: (nat, Commitment) -> Result<Hash, Error>,           // GetRecentBlockhash before transaction i
    sendAndConfirm: (nat, Transaction, bool, Commitment) -> Result<Signature, Error>) // send transaction i (skip preflight?, preflight commitment), await confirmation

  /** One stage of the handling of transaction `index`, with what it returned. */
  datatype Call =
    | GetRecentBlockhash(index: nat, commitment: Commitment, hash: Result<Hash, Error>)
    | SignTx(index: nat, tx: Transaction, signed: Result<Transaction, Error>)
    | SendAndConfirm(index: nat, tx: Transaction, skipPreflight: bool, preflightCommitment: Commitment, sig: Result<Signature, Error>)
  {
    /** Position of the stage within the handling of one transaction. */
    function Stage(): nat
    {
      if GetRecentBlockhash? then 0 else if SignTx? then 1 else 2
    }

    /** The error the stage returned, if any. */
    function Failure(): Option<Error>
    {
      if GetRecentBlockhash? then (if hash.Err? then Some(hash.error) else None)
      else if SignTx? then (if signed.Err? then Some(signed.error) else None)
      else if sig.Err? then Some(sig.error) else None
    }

    predicate Succeeded()
    {
      Failure().None?
    }
  }

  /** The calls made, the error returned, and how many transactions were confirmed. */
  datatype Outcome = Outcome(calls: seq<Call>, err: Option<Error>, confirmed: nat)

  /** The key selector handed to Sign: the wallet for the wallet's own public key, nothing for any other key. */
  function SelectKey(wallet: PrivateKey, key: PublicKey): Option<PrivateKey>
  {
    if PublicKeyOf(wallet) == key then Some(wallet) else None
  }

  function Selector(wallet: PrivateKey): PublicKey -> Option<PrivateKey>
  {
    key => SelectKey(wallet, key)
  }

  /** The stages for transaction `i`, up to the first that fails. */
  function Handle(i: nat, tx: Transaction, wallet: PrivateKey, ed25519: (Message, PrivateKey) -> Signature,
                  cluster: Cluster): Outcome
  {
    var recent := cluster.recentBlockhash(i, Confirmed);
    var fetch := GetRecentBlockhash(i, Confirmed, recent);
    match recent
    case Err(e) => Outcome([fetch], Some(e), 0)
    case Ok(h) =>
      var prepared := Transaction([], tx.message.(recentBlockhash := h));
      var signed := Sign(prepared, Selector(wallet), ed25519);
      var sign := SignTx(i, prepared, signed);
      match signed
      case Err(e) => Outcome([fetch, sign], Some(e), 0)
      case Ok(stx) =>
        var sent := cluster.sendAndConfirm(i, stx, false, Confirmed);
        var send := SendAndConfirm(i, stx, false, Confirmed, sent);
        match sent
        case Err(e) => Outcome([fetch, sign, send], Some(e), 0)
        case Ok(_) => Outcome([fetch, sign, send], None, 1)
  }

  /** Handling transactions i, i+1, ... in order, stopping at the first failure. */
  function Attempt(txs: seq<Transaction>, i: nat, wallet: PrivateKey, ed25519: (Message, PrivateKey) -> Signature,
                   cluster: Cluster): Outcome
    requires i <= |txs|
    decreases |txs| - i
  {
    if i == |txs| then Outcome([], None, 0)
    else
      var step := Handle(i, txs[i], wallet, ed25519, cluster);
      if step.err.Some? then step
      else
        var rest := Attempt(txs, i + 1, wallet, ed25519, cluster);
        Outcome(step.calls + rest.calls, rest.err, 1 + rest.confirmed)
  }

  /** The outcome of sendTransactions on `txs`. */
  function Send(txs: seq<Transaction>, wallet: PrivateKey, ed25519: (Message, PrivateKey) -> Signature,
                cluster: Cluster): Outcome
  {
    match cluster.connect
    case Some(e) => Outcome([], Some(e), 0)
    case None => Attempt(txs, 0, wallet, ed25519, cluster)
  }

  /**
   * sendTransactions. The caller's array is read and never written (there is no
   * modifies clause): each iteration works on its own copy of the element.
   * `calls` and `confirmed` are the ghost record of what the run did.
   */
  method SendTransactions(txs: array<Transaction>, wallet: PrivateKey, ed25519: (Message, PrivateKey) -> Signature,
                          cluster: Cluster)
    returns (err: Option<Error>, ghost calls: seq<Call>, ghost confirmed: nat)
    ensures err == Send(txs[..], wallet, ed25519, cluster).err
    ensures Outcome(calls, err, confirmed) == Send(txs[..], wallet, ed25519, cluster)
  {
    calls, confirmed := [], 0;
    if cluster.connect.Some? {
      err := cluster.connect;
      return;
    }
    ghost var s := txs[..];
    ghost var all := Attempt(s, 0, wallet, ed25519, cluster);
    for i := 0 to txs.Length
      invariant confirmed == i
      invariant all == Resume(calls, i, Attempt(s, i, wallet, ed25519, cluster))
    {
      ghost var round;
      assert txs[i] == s[i];
      err, round := HandleTransaction(i, txs[i], wallet, ed25519, cluster);
      AttemptUnfold(s, i, wallet, ed25519, cluster);
      ghost var rest := Attempt(s, i + 1, wallet, ed25519, cluster);
      if err.Some? {
        calls := calls + round;
        return;
      }
      assert calls + (round + rest.calls) == (calls + round) + rest.calls;
      calls := calls + round;
      confirmed := confirmed + 1;
    }
    err := None;
  }

  /**
   * One iteration of sendTransactions' loop, on its copy `tx` of transaction i:
   * fetch a blockhash, put it into the message, clear the signatures, sign with
   * the wallet's selector, send and await confirmation; the first error is
   * returned at once.
   */
  method HandleTransaction(i: nat, tx: Transaction, wallet: PrivateKey, ed25519: (Message, PrivateKey) -> Signature,
                           cluster: Cluster)
    returns (err: Option<Error>, ghost calls: seq<Call>)
    ensures err == Handle(i, tx, wallet, ed25519, cluster).err
    ensures Handle(i, tx, wallet, ed25519, cluster) == Outcome(calls, err, if err.None? then 1 else 0)
  {
    var tx := tx;
    var recent := cluster.recentBlockhash(i, Confirmed);
    calls := [GetRecentBlockhash(i, Confirmed, recent)];
    if recent.Err? {
      return Some(recent.error), calls;
    }
    tx := tx.(message := tx.message.(recentBlockhash := recent.value));
    tx := tx.(signatures := []);
    var signed := Sign(tx, Selector(wallet), ed25519);
    calls := calls + [SignTx(i, tx, signed)];
    if signed.Err? {
      return Some(signed.error), calls;
    }
    tx := signed.value;
    var sig := cluster.sendAndConfirm(i, tx, false, Confirmed);
    calls := calls + [SendAndConfirm(i, tx, false, Confirmed, sig)];
    if sig.Err? {
      return Some(sig.error), calls;
    }
    err := None;
  }

  lemma AttemptUnfold(txs: seq<Transaction>, i: nat, wallet: PrivateKey, ed25519: (Message, PrivateKey) -> Signature,
                      cluster: Cluster)
    requires i < |txs|
    ensures var step := Handle(i, txs[i], wallet, ed25519, cluster);
      Attempt(txs, i, wallet, ed25519, cluster) ==
        if step.err.Some? then step else Resume(step.calls, 1, Attempt(txs, i + 1, wallet, ed25519, cluster))
  {
  }

  /** The outcome of a run that made `calls` and confirmed `done` transactions, then continued as `rest`. */
  function Resume(calls: seq<Call>, done: nat, rest: Outcome): Outcome
  {
    Outcome(calls + rest.calls, rest.err, done + rest.confirmed)
  }

  // ---------------------------------------------------------------------------
  // Signing with the wallet's selector

  lemma {:induction false} SignaturesWithWallet(msg: Message, keys: seq<PublicKey>, wallet: PrivateKey,
                                                ed25519: (Message, PrivateKey) -> Signature)
    ensures var r := Signatures(msg, keys, Selector(wallet), ed25519);
      && (r.Ok? <==> forall j :: 0 <= j < |keys| ==> keys[j] == PublicKeyOf(wallet))
      && (r.Ok? ==> |r.value| == |keys| && forall j :: 0 <= j < |r.value| ==> r.value[j] == ed25519(msg, wallet))
      && (r.Err? ==> exists j :: 0 <= j < |keys| && r.error == SignerKeyNotFound(keys[j]) &&
                       keys[j] != PublicKeyOf(wallet) && forall k :: 0 <= k < j ==> keys[k] == PublicKeyOf(wallet))
  {
    if keys != [] {
      SignaturesWithWallet(msg, keys[1..], wallet, ed25519);
      var r := Signatures(msg, keys, Selector(wallet), ed25519);
      if keys[0] == PublicKeyOf(wallet) {
        if r.Err? {
          var j :| 0 <= j < |keys[1..]| && r.error == SignerKeyNotFound(keys[1..][j]) &&
                   keys[1..][j] != PublicKeyOf(wallet) && forall k :: 0 <= k < j ==> keys[1..][k] == PublicKeyOf(wallet);
          assert keys[j + 1] == keys[1..][j];
          forall k | 0 <= k < j + 1 ensures keys[k] == PublicKeyOf(wallet) {
            if k > 0 { assert keys[k] == keys[1..][k - 1]; }
          }
        } else {
          forall j | 0 <= j < |keys| ensures keys[j] == PublicKeyOf(wallet) {
            if j > 0 { assert keys[j] == keys[1..][j - 1]; }
          }
        }
      }
    }
  }

  /**
   * Signing with the wallet's selector succeeds exactly when every required
   * signer is the wallet's own public key; it then appends one signature per
   * required signer, each made with the wallet over the message, and leaves the
   * message alone. Otherwise it fails on the first signer that is another key:
   * no other private key is ever used.
   */
  lemma SignWithWallet(tx: Transaction, wallet: PrivateKey, ed25519: (Message, PrivateKey) -> Signature)
    ensures var r := Sign(tx, Selector(wallet), ed25519);
      var keys := tx.message.requiredSigners;
      && (r.Ok? <==> forall j :: 0 <= j < |keys| ==> keys[j] == PublicKeyOf(wallet))
      && (r.Ok? ==> r.value.message == tx.message && |r.value.signatures| == |tx.signatures| + |keys| &&
                    r.value.signatures[..|tx.signatures|] == tx.signatures &&
                    forall j :: |tx.signatures| <= j < |r.value.signatures| ==> r.value.signatures[j] == ed25519(tx.message, wallet))
      && (r.Err? ==> exists j :: 0 <= j < |keys| && r.error == SignerKeyNotFound(keys[j]) &&
                       keys[j] != PublicKeyOf(wallet) && forall k :: 0 <= k < j ==> keys[k] == PublicKeyOf(wallet))
  {
    var sigs := Signatures(tx.message, tx.message.requiredSigners, Selector(wallet), ed25519);
    SignaturesWithWallet(tx.message, tx.message.requiredSigners, wallet, ed25519);
    if sigs.Ok? {
      var all := tx.signatures + sigs.value;
      assert all[..|tx.signatures|] == tx.signatures;
      forall j | |tx.signatures| <= j < |all| ensures all[j] == ed25519(tx.message, wallet) {
        assert all[j] == sigs.value[j - |tx.signatures|];
      }
    }
  }

  // ---------------------------------------------------------------------------
  // One transaction's round of calls

  lemma HandleShape(i: nat, tx: Transaction, wallet: PrivateKey, ed25519: (Message, PrivateKey) -> Signature,
                    cluster: Cluster)
    ensures var o := Handle(i, tx, wallet, ed25519, cluster);
      && 1 <= |o.calls| <= 3
      && (forall p :: 0 <= p < |o.calls| ==> o.calls[p].index == i && o.calls[p].Stage() == p)
      && (forall p :: 0 <= p < |o.calls| - 1 ==> o.calls[p].Succeeded())
      && o.err == o.calls[|o.calls| - 1].Failure()
      && (o.err.None? ==> |o.calls| == 3 && o.confirmed == 1)
      && (o.err.Some? ==> o.confirmed == 0)
  {
  }

  /** The message transaction i is signed and sent with: its own message carrying the blockhash fetched for it. */
  predicate PreparedFrom(tx: Transaction, fetch: Call, sign: Call)
  {
    && fetch.GetRecentBlockhash? && fetch.hash.Ok? && fetch.commitment == Confirmed
    && sign.SignTx? && sign.tx == Transaction([], tx.message.(recentBlockhash := fetch.hash.value))
  }

  /** What a fully signed transaction looks like: one signature by the wallet over its message per required signer. */
  predicate SignedByWallet(stx: Transaction, wallet: PrivateKey, ed25519: (Message, PrivateKey) -> Signature)
  {
    && |stx.signatures| == |stx.message.requiredSigners|
    && (forall j :: 0 <= j < |stx.message.requiredSigners| ==> stx.message.requiredSigners[j] == PublicKeyOf(wallet))
    && (forall j :: 0 <= j < |stx.signatures| ==> stx.signatures[j] == ed25519(stx.message, wallet))
  }

  /** The transaction `send` sends is the one Sign returned for `tx` prepared by `fetch` and `sign`, signed by the wallet. */
  predicate SentAsSigned(tx: Transaction, fetch: Call, sign: Call, send: Call, wallet: PrivateKey,
                         ed25519: (Message, PrivateKey) -> Signature)
  {
    && PreparedFrom(tx, fetch, sign)
    && send.SendAndConfirm? && sign.signed == Ok(send.tx)
    && !send.skipPreflight && send.preflightCommitment == Confirmed
    && send.tx.message == sign.tx.message
    && SignedByWallet(send.tx, wallet, ed25519)
  }

  /**
   * Within one round, a fresh blockhash is fetched at "confirmed" commitment
   * before signing, the transaction handed to Sign is the caller's with that
   * blockhash and no signatures, and what is sent (with preflight checks at
   * "confirmed" commitment) is exactly what Sign returned: signed by the wallet alone.
   */
  lemma RoundSignsFreshMessage(i: nat, tx: Transaction, wallet: PrivateKey, ed25519: (Message, PrivateKey) -> Signature,
                               cluster: Cluster)
    ensures var o := Handle(i, tx, wallet, ed25519, cluster);
      && (|o.calls| >= 2 ==> PreparedFrom(tx, o.calls[0], o.calls[1]))
      && (|o.calls| == 3 ==> SentAsSigned(tx, o.calls[0], o.calls[1], o.calls[2], wallet, ed25519))
  {
    var o := Handle(i, tx, wallet, ed25519, cluster);
    var recent := cluster.recentBlockhash(i, Confirmed);
    if recent.Ok? {
      SignWithWallet(Transaction([], tx.message.(recentBlockhash := recent.value)), wallet, ed25519);
    }
  }

  // ---------------------------------------------------------------------------
  // The shape of the whole trace

  /** The calls of the rounds of transactions i .. n-1, one after the other. */
  function Rounds(txs: seq<Transaction>, i: nat, n: nat, wallet: PrivateKey, ed25519: (Message, PrivateKey) -> Signature,
                  cluster: Cluster): seq<Call>
    requires i <= n <= |txs|
    decreases n - i
  {
    if i == n then [] else Handle(i, txs[i], wallet, ed25519, cluster).calls + Rounds(txs, i + 1, n, wallet, ed25519, cluster)
  }

  lemma {:induction false} AttemptConfirmed(txs: seq<Transaction>, i: nat, wallet: PrivateKey,
                                            ed25519: (Message, PrivateKey) -> Signature, cluster: Cluster)
    requires i <= |txs|
    decreases |txs| - i
    ensures var o := Attempt(txs, i, wallet, ed25519, cluster);
      && i + o.confirmed <= |txs|
      && (forall j :: i <= j < i + o.confirmed ==> Handle(j, txs[j], wallet, ed25519, cluster).err.None?)
      && (o.err.None? ==> i + o.confirmed == |txs|)
      && (o.err.Some? ==> i + o.confirmed < |txs| &&
                          Handle(i + o.confirmed, txs[i + o.confirmed], wallet, ed25519, cluster).err == o.err)
  {
    if i < |txs| && Handle(i, txs[i], wallet, ed25519, cluster).err.None? {
      AttemptConfirmed(txs, i + 1, wallet, ed25519, cluster);
    }
  }

  lemma {:induction false} AttemptRounds(txs: seq<Transaction>, i: nat, wallet: PrivateKey,
                                         ed25519: (Message, PrivateKey) -> Signature, cluster: Cluster)
    requires i <= |txs|
    decreases |txs| - i
    ensures var o := Attempt(txs, i, wallet, ed25519, cluster);
      && i + o.confirmed <= |txs|
      && (o.err.None? ==> o.calls == Rounds(txs, i, |txs|, wallet, ed25519, cluster))
      && (o.err.Some? ==>
            i + o.confirmed < |txs| &&
            o.calls == Rounds(txs, i, i + o.confirmed, wallet, ed25519, cluster) +
                       Handle(i + o.confirmed, txs[i + o.confirmed], wallet, ed25519, cluster).calls)
  {
    AttemptConfirmed(txs, i, wallet, ed25519, cluster);
    if i < |txs| {
      var step := Handle(i, txs[i], wallet, ed25519, cluster);
      if step.err.Some? {
        assert Rounds(txs, i, i, wallet, ed25519, cluster) == [];
        assert step.calls == [] + step.calls;
      } else {
        AttemptRounds(txs, i + 1, wallet, ed25519, cluster);
        var rest := Attempt(txs, i + 1, wallet, ed25519, cluster);
        if rest.err.Some? {
          var n := i + 1 + rest.confirmed;
          var last := Handle(n, txs[n], wallet, ed25519, cluster).calls;
          assert step.calls + (Rounds(txs, i + 1, n, wallet, ed25519, cluster) + last) ==
                 (step.calls + Rounds(txs, i + 1, n, wallet, ed25519, cluster)) + last;
        }
      }
    }
  }

  /**
   * The run is the sequence of rounds of transactions 0, 1, 2, ... in order: a
   * successful run is the complete, successful round of every transaction; a run
   * that fails after the connection is made is the successful rounds of the first
   * `confirmed` transactions followed by the round of transaction `confirmed`,
   * which failed with the returned error; nothing later is touched and nothing
   * is undone. A failed connection makes no call at all.
   */
  lemma RunsRoundsInOrder(txs: seq<Transaction>, wallet: PrivateKey, ed25519: (Message, PrivateKey) -> Signature,
                          cluster: Cluster)
    ensures var o := Send(txs, wallet, ed25519, cluster);
      && o.confirmed <= |txs|
      && (forall j :: 0 <= j < o.confirmed ==> Handle(j, txs[j], wallet, ed25519, cluster).err.None?)
      && (cluster.connect.Some? ==> o == Outcome([], cluster.connect, 0))
      && (o.err.None? ==> o.confirmed == |txs| && o.calls == Rounds(txs, 0, |txs|, wallet, ed25519, cluster))
      && (cluster.connect.None? && o.err.Some? ==>
            && o.confirmed < |txs|
            && Handle(o.confirmed, txs[o.confirmed], wallet, ed25519, cluster).err == o.err
            && o.calls == Rounds(txs, 0, o.confirmed, wallet, ed25519, cluster) +
                          Handle(o.confirmed, txs[o.confirmed], wallet, ed25519, cluster).calls)
  {
    AttemptConfirmed(txs, 0, wallet, ed25519, cluster);
    AttemptRounds(txs, 0, wallet, ed25519, cluster);
  }

  /** Call c sits at position p of a run that started with transaction `base`, and is that round's call for its stage. */
  predicate Placed(c: Call, p: nat, base: nat, txs: seq<Transaction>, wallet: PrivateKey,
                   ed25519: (Message, PrivateKey) -> Signature, cluster: Cluster)
  {
    && base <= c.index < |txs|
    && 3 * (c.index - base) + c.Stage() == p
    && c.Stage() < |Handle(c.index, txs[c.index], wallet, ed25519, cluster).calls|
    && c == Handle(c.index, txs[c.index], wallet, ed25519, cluster).calls[c.Stage()]
  }

  /** Every call of `calls` sits where Placed puts it, for a run that started with transaction `base`. */
  predicate AllPlaced(calls: seq<Call>, base: nat, txs: seq<Transaction>, wallet: PrivateKey,
                      ed25519: (Message, PrivateKey) -> Signature, cluster: Cluster)
  {
    forall p :: 0 <= p < |calls| ==> Placed(calls[p], p, base, txs, wallet, ed25519, cluster)
  }

  /** The calls of transaction i's own round sit where Placed puts them, in a run that starts with i. */
  lemma RoundPlaced(txs: seq<Transaction>, i: nat, wallet: PrivateKey,
                    ed25519: (Message, PrivateKey) -> Signature, cluster: Cluster)
    requires i < |txs|
    ensures AllPlaced(Handle(i, txs[i], wallet, ed25519, cluster).calls, i, txs, wallet, ed25519, cluster)
  {
    var h := Handle(i, txs[i], wallet, ed25519, cluster);
    HandleShape(i, txs[i], wallet, ed25519, cluster);
    forall p | 0 <= p < |h.calls| ensures Placed(h.calls[p], p, i, txs, wallet, ed25519, cluster) {
      assert h.calls[p].index == i && h.calls[p].Stage() == p;
    }
  }

  /** A complete round for i followed by a run placed from i + 1 is a run placed from i. */
  lemma PlacedCons(round: seq<Call>, rest: seq<Call>, i: nat, txs: seq<Transaction>, wallet: PrivateKey,
                   ed25519: (Message, PrivateKey) -> Signature, cluster: Cluster)
    requires |round| == 3
    requires AllPlaced(round, i, txs, wallet, ed25519, cluster)
    requires AllPlaced(rest, i + 1, txs, wallet, ed25519, cluster)
    ensures AllPlaced(round + rest, i, txs, wallet, ed25519, cluster)
  {
    forall p | 0 <= p < |round + rest| ensures Placed((round + rest)[p], p, i, txs, wallet, ed25519, cluster) {
      if p < 3 {
        assert (round + rest)[p] == round[p];
      } else {
        assert (round + rest)[p] == rest[p - 3];
        assert Placed(rest[p - 3], p - 3, i + 1, txs, wallet, ed25519, cluster);
      }
    }
  }

  lemma {:induction false} AttemptPlaced(txs: seq<Transaction>, i: nat, wallet: PrivateKey,
                                         ed25519: (Message, PrivateKey) -> Signature, cluster: Cluster)
    requires i <= |txs|
    decreases |txs| - i
    ensures AllPlaced(Attempt(txs, i, wallet, ed25519, cluster).calls, i, txs, wallet, ed25519, cluster)
  {
    if i < |txs| {
      var step := Handle(i, txs[i], wallet, ed25519, cluster);
      HandleShape(i, txs[i], wallet, ed25519, cluster);
      RoundPlaced(txs, i, wallet, ed25519, cluster);
      if step.err.None? {
        AttemptPlaced(txs, i + 1, wallet, ed25519, cluster);
        var rest := Attempt(txs, i + 1, wallet, ed25519, cluster);
        assert Attempt(txs, i, wallet, ed25519, cluster).calls == step.calls + rest.calls;
        PlacedCons(step.calls, rest.calls, i, txs, wallet, ed25519, cluster);
      }
    }
  }

  /** Every call but the last succeeded. */
  predicate SucceededButLast(calls: seq<Call>)
  {
    forall p :: 0 <= p < |calls| - 1 ==> calls[p].Succeeded()
  }

  /** No call is for a transaction after k. */
  predicate IndicesAtMost(calls: seq<Call>, k: nat)
  {
    forall p :: 0 <= p < |calls| ==> calls[p].index <= k
  }

  /** A complete, successful round for i followed by a run from i + 1 keeps both shapes. */
  lemma HaltsCons(round: seq<Call>, rest: seq<Call>, i: nat, k: nat)
    requires |round| == 3 && i < k
    requires forall p :: 0 <= p < 3 ==> round[p].Succeeded() && round[p].index == i
    requires SucceededButLast(rest) && IndicesAtMost(rest, k)
    ensures SucceededButLast(round + rest) && IndicesAtMost(round + rest, k)
  {
    forall p | 0 <= p < |round + rest| ensures (round + rest)[p].index <= k {
      if p >= 3 {
        assert (round + rest)[p] == rest[p - 3];
      }
    }
    forall p | 0 <= p < |round + rest| - 1 ensures (round + rest)[p].Succeeded() {
      if p >= 3 {
        assert (round + rest)[p] == rest[p - 3];
      }
    }
  }

  lemma {:induction false} AttemptHalts(txs: seq<Transaction>, i: nat, wallet: PrivateKey,
                                        ed25519: (Message, PrivateKey) -> Signature, cluster: Cluster)
    requires i <= |txs|
    decreases |txs| - i
    ensures var o := Attempt(txs, i, wallet, ed25519, cluster);
      SucceededButLast(o.calls) && IndicesAtMost(o.calls, i + o.confirmed)
  {
    if i < |txs| {
      var step := Handle(i, txs[i], wallet, ed25519, cluster);
      HandleShape(i, txs[i], wallet, ed25519, cluster);
      if step.err.None? {
        AttemptHalts(txs, i + 1, wallet, ed25519, cluster);
        var rest := Attempt(txs, i + 1, wallet, ed25519, cluster);
        assert Attempt(txs, i, wallet, ed25519, cluster).calls == step.calls + rest.calls;
        HaltsCons(step.calls, rest.calls, i, i + 1 + rest.confirmed);
      }
    }
  }

  lemma {:induction false} AttemptEnds(txs: seq<Transaction>, i: nat, wallet: PrivateKey,
                                       ed25519: (Message, PrivateKey) -> Signature, cluster: Cluster)
    requires i <= |txs|
    decreases |txs| - i
    ensures var o := Attempt(txs, i, wallet, ed25519, cluster);
      && (o.err.None? ==> |o.calls| == 3 * (|txs| - i) && (o.calls == [] || o.calls[|o.calls| - 1].Succeeded()))
      && (o.err.Some? ==> |o.calls| > 0 && o.calls[|o.calls| - 1].Failure() == o.err &&
                          o.calls[|o.calls| - 1].index == i + o.confirmed)
  {
    if i < |txs| {
      var step := Handle(i, txs[i], wallet, ed25519, cluster);
      HandleShape(i, txs[i], wallet, ed25519, cluster);
      if step.err.None? {
        AttemptEnds(txs, i + 1, wallet, ed25519, cluster);
        var rest := Attempt(txs, i + 1, wallet, ed25519, cluster);
        var calls := step.calls + rest.calls;
        assert Attempt(txs, i, wallet, ed25519, cluster).calls == calls;
        if rest.calls != [] {
          assert calls[|calls| - 1] == rest.calls[|rest.calls| - 1];
        }
      }
    }
  }

  /** Every call of a run sits where its transaction and stage place it. */
  lemma SendPlaced(txs: seq<Transaction>, wallet: PrivateKey, ed25519: (Message, PrivateKey) -> Signature,
                   cluster: Cluster)
    ensures AllPlaced(Send(txs, wallet, ed25519, cluster).calls, 0, txs, wallet, ed25519, cluster)
  {
    AttemptPlaced(txs, 0, wallet, ed25519, cluster);
  }

  /**
   * Transactions are handled strictly one after another, stage after stage: the
   * p-th call is stage p % 3 (0 fetch blockhash, 1 sign, 2 send and confirm) of
   * transaction p / 3, i.e. 3 * index + stage == p.
   */
  lemma CallsInOrder(txs: seq<Transaction>, wallet: PrivateKey, ed25519: (Message, PrivateKey) -> Signature,
                     cluster: Cluster)
    ensures var o := Send(txs, wallet, ed25519, cluster);
      forall p :: 0 <= p < |o.calls| ==> 3 * o.calls[p].index + o.calls[p].Stage() == p && o.calls[p].index < |txs|
  {
    AttemptPlaced(txs, 0, wallet, ed25519, cluster);
  }

  /** `c` sent transaction i and the cluster confirmed it. */
  predicate Confirms(c: Call, i: nat)
  {
    c.SendAndConfirm? && c.index == i && c.sig.Ok?
  }

  /** If call p is for a transaction i > 0, an earlier call, the one at position 3 * i - 1, confirmed transaction i - 1. */
  predicate PreviousConfirmed(calls: seq<Call>, p: nat)
    requires p < |calls|
  {
    var i := calls[p].index;
    i > 0 ==> 3 * i - 1 < p && Confirms(calls[3 * i - 1], i - 1)
  }

  /** In a trace laid out round by round whose calls all succeeded but the last, PreviousConfirmed holds at p. */
  lemma PreviousConfirmedAt(calls: seq<Call>, p: nat, txs: seq<Transaction>, wallet: PrivateKey,
                            ed25519: (Message, PrivateKey) -> Signature, cluster: Cluster)
    requires p < |calls|
    requires AllPlaced(calls, 0, txs, wallet, ed25519, cluster)
    requires SucceededButLast(calls)
    ensures PreviousConfirmed(calls, p)
  {
    if calls[p].index > 0 {
      var q := 3 * calls[p].index - 1;
      assert Placed(calls[p], p, 0, txs, wallet, ed25519, cluster);
      assert Placed(calls[q], q, 0, txs, wallet, ed25519, cluster);
      assert calls[q].Stage() == 2;
    }
  }

  /** A call for transaction i > 0 comes only after transaction i - 1 has been sent and confirmed. */
  lemma ConfirmedBeforeNext(txs: seq<Transaction>, wallet: PrivateKey, ed25519: (Message, PrivateKey) -> Signature,
                            cluster: Cluster)
    ensures var o := Send(txs, wallet, ed25519, cluster);
      forall p :: 0 <= p < |o.calls| ==> PreviousConfirmed(o.calls, p)
  {
    SendPlaced(txs, wallet, ed25519, cluster);
    AttemptHalts(txs, 0, wallet, ed25519, cluster);
    var o := Send(txs, wallet, ed25519, cluster);
    forall p | 0 <= p < |o.calls| ensures PreviousConfirmed(o.calls, p) {
      PreviousConfirmedAt(o.calls, p, txs, wallet, ed25519, cluster);
    }
  }

  /**
   * The run stops at the first failure and returns that error: every call but
   * the last succeeded, a failed run's last call failed with the returned error
   * (or the websocket connection failed and nothing was called), no transaction
   * after the failing one is touched, and the ghost count `confirmed` is the index
   * of the failing transaction. A successful run made three calls per transaction,
   * one send and confirm each.
   */
  lemma StopsAtFirstFailure(txs: seq<Transaction>, wallet: PrivateKey, ed25519: (Message, PrivateKey) -> Signature,
                            cluster: Cluster)
    ensures var o := Send(txs, wallet, ed25519, cluster);
      && (forall p :: 0 <= p < |o.calls| - 1 ==> o.calls[p].Succeeded())
      && (forall p :: 0 <= p < |o.calls| ==> o.calls[p].index <= o.confirmed)
      && (o.err.None? <==> cluster.connect.None? && forall p :: 0 <= p < |o.calls| ==> o.calls[p].Succeeded())
      && (o.err.None? ==> |o.calls| == 3 * |txs| && o.confirmed == |txs|)
      && (o.err.Some? ==>
            (o.calls == [] && o.err == cluster.connect) ||
            (o.calls != [] && o.calls[|o.calls| - 1].Failure() == o.err && o.calls[|o.calls| - 1].index == o.confirmed))
  {
    AttemptHalts(txs, 0, wallet, ed25519, cluster);
    AttemptEnds(txs, 0, wallet, ed25519, cluster);
    AttemptConfirmed(txs, 0, wallet, ed25519, cluster);
  }

  /** In a trace laid out round by round, a send at p is preceded by the fetch and the signing of its own round. */
  lemma SentAt(calls: seq<Call>, p: nat, txs: seq<Transaction>, wallet: PrivateKey,
               ed25519: (Message, PrivateKey) -> Signature, cluster: Cluster)
    requires 2 <= p < |calls| && calls[p].SendAndConfirm?
    requires Placed(calls[p], p, 0, txs, wallet, ed25519, cluster)
    requires Placed(calls[p - 1], p - 1, 0, txs, wallet, ed25519, cluster)
    requires Placed(calls[p - 2], p - 2, 0, txs, wallet, ed25519, cluster)
    ensures calls[p].index < |txs| && calls[p - 2].index == calls[p - 1].index == calls[p].index
    ensures SentAsSigned(txs[calls[p].index], calls[p - 2], calls[p - 1], calls[p], wallet, ed25519)
  {
    var i := calls[p].index;
    assert calls[p].Stage() == 2;
    var h := Handle(i, txs[i], wallet, ed25519, cluster);
    HandleShape(i, txs[i], wallet, ed25519, cluster);
    RoundSignsFreshMessage(i, txs[i], wallet, ed25519, cluster);
  }

  /**
   * Every transaction sent is the caller's transaction i with the blockhash
   * fetched for it in the call two before, its old signatures dropped, and one
   * signature by the wallet per required signer, exactly as Sign returned it in
   * the call just before.
   */
  lemma SendsFreshlySigned(txs: seq<Transaction>, wallet: PrivateKey, ed25519: (Message, PrivateKey) -> Signature,
                           cluster: Cluster)
    ensures var o := Send(txs, wallet, ed25519, cluster);
      forall p :: 2 <= p < |o.calls| && o.calls[p].SendAndConfirm? ==>
        && o.calls[p].index < |txs|
        && o.calls[p - 2].index == o.calls[p - 1].index == o.calls[p].index
        && SentAsSigned(txs[o.calls[p].index], o.calls[p - 2], o.calls[p - 1], o.calls[p], wallet, ed25519)
  {
    SendPlaced(txs, wallet, ed25519, cluster);
    var o := Send(txs, wallet, ed25519, cluster);
    forall p | 2 <= p < |o.calls| && o.calls[p].SendAndConfirm?
      ensures o.calls[p].index < |txs| && o.calls[p - 2].index == o.calls[p - 1].index == o.calls[p].index
      ensures SentAsSigned(txs[o.calls[p].index], o.calls[p - 2], o.calls[p - 1], o.calls[p], wallet, ed25519)
    {
      SentAt(o.calls, p, txs, wallet, ed25519, cluster);
    }
  }
}
