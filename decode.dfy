/**
 * Decoding of the swap API's response (examples/main.go, decode): the three
 * optional base64 payloads are taken in the fixed role order setup, swap,
 * cleanup; empty ones are skipped; each remaining one is base64-decoded and
 * parsed into a transaction; the first payload that is not valid base64 makes
 * the whole decoding fail.
 */
module Decoding {
  import opened Wrappers
  import opened Solana

  /** The swap API's answer: three payloads, an empty string meaning "absent". */
  datatype SwapResponse = SwapResponse(setupTransaction: string, swapTransaction: string, cleanupTransaction: string)

  datatype Role = Setup | Swap | Cleanup

  /** The order in which decode visits the payloads. */
  const RoleOrder: seq<Role> := [Setup, Swap, Cleanup]

  /** Position of a role in RoleOrder. */
  function Rank(r: Role): nat
  {
    match r
    case Setup => 0
    case Swap => 1
    case Cleanup => 2
  }

  function Payload(sr: SwapResponse, r: Role): string
  {
    match r
    case Setup => sr.setupTransaction
    case Swap => sr.swapTransaction
    case Cleanup => sr.cleanupTransaction
  }

  /**
   * The two decoders decode relies on: base64 with the standard alphabet and
   * padding (DecodeString) and the binary transaction decoder, whose failure is
   * a panic (None) rather than an error value.
   */
  datatype Codec = Codec(base64: string -> Result<seq<byte>, Error>, unmarshal: seq<byte> -> Option<Transaction>)

  /** What happens to one payload. */
  datatype PayloadDecoding = Parsed(tx: Transaction) | NotBase64(error: Error) | NotTransaction

  /** What decode yields: the transactions, the base64 error it returns, or the decoder's panic. */
  datatype DecodeOutcome = Decoded(txs: seq<Transaction>) | DecodeError(error: Error) | DecodePanic(role: Role)

  function DecodePayload(sr: SwapResponse, r: Role, codec: Codec): PayloadDecoding
  {
    match codec.base64(Payload(sr, r))
    case Err(e) => NotBase64(e)
    case Ok(bytes) =>
      match codec.unmarshal(bytes)
      case None => NotTransaction
      case Some(tx) => Parsed(tx)
  }

  /** The roles of `rs` whose payload is present (non-empty), in the order of `rs`. */
  function Present(sr: SwapResponse, rs: seq<Role>): seq<Role>
  {
    if rs == [] then []
    else if Payload(sr, rs[0]) == "" then Present(sr, rs[1..])
    else [rs[0]] + Present(sr, rs[1..])
  }

  /** Decodes the payloads of `rs` in order, stopping at the first that does not decode. */
  function DecodeRoles(sr: SwapResponse, rs: seq<Role>, codec: Codec): DecodeOutcome
  {
    if rs == [] then Decoded([])
    else match DecodePayload(sr, rs[0], codec)
      case NotBase64(e) => DecodeError(e)
      case NotTransaction => DecodePanic(rs[0])
      case Parsed(tx) =>
        match DecodeRoles(sr, rs[1..], codec)
        case Decoded(rest) => Decoded([tx] + rest)
        case other => other
  }

  /** The roles of `rs` whose payload reaches the base64 decoder: all up to and including the first failure. */
  function Reached(sr: SwapResponse, rs: seq<Role>, codec: Codec): seq<Role>
  {
    if rs == [] then []
    else if DecodePayload(sr, rs[0], codec).Parsed? then [rs[0]] + Reached(sr, rs[1..], codec)
    else [rs[0]]
  }

  /** The outcome of decode on a response. */
  function DecodeResponse(sr: SwapResponse, codec: Codec): DecodeOutcome
  {
    DecodeRoles(sr, Present(sr, RoleOrder), codec)
  }

  /**
   * decode: visits the payloads in role order, skips empty ones, and returns at
   * the first payload that is not valid base64. `tried` records the roles whose
   * payload was handed to the base64 decoder.
   */
  method Decode(sr: SwapResponse, codec: Codec) returns (out: DecodeOutcome, ghost tried: seq<Role>)
    ensures out == DecodeResponse(sr, codec)
    ensures tried == Reached(sr, Present(sr, RoleOrder), codec)
  {
    var sertxs := [sr.setupTransaction, sr.swapTransaction, sr.cleanupTransaction];
    var resp: seq<Transaction> := [];
    tried := [];
    for i := 0 to 3
      invariant DecodeRoles(sr, Present(sr, RoleOrder[..i]), codec) == Decoded(resp)
      invariant tried == Reached(sr, Present(sr, RoleOrder[..i]), codec)
    {
      var r := RoleOrder[i];
      assert sertxs[i] == Payload(sr, r);
      PresentStep(sr, i);
      if sertxs[i] != "" {
        RoleStep(sr, Present(sr, RoleOrder[..i]), r, codec);
        tried := tried + [r];
        var tx := codec.base64(sertxs[i]);
        if tx.Err? {
          out := DecodeError(tx.error);
          RestUnreached(sr, i + 1, codec);
          return;
        }
        var s := codec.unmarshal(tx.value);
        if s.None? {
          out := DecodePanic(r);
          RestUnreached(sr, i + 1, codec);
          return;
        }
        resp := resp + [s.value];
      }
    }
    assert RoleOrder[..3] == RoleOrder;
    out := Decoded(resp);
  }

  /** Visiting role i adds it to the present roles exactly when its payload is non-empty. */
  lemma PresentStep(sr: SwapResponse, i: nat)
    requires i < 3
    ensures Present(sr, RoleOrder[..i + 1]) ==
      if Payload(sr, RoleOrder[i]) == "" then Present(sr, RoleOrder[..i]) else Present(sr, RoleOrder[..i]) + [RoleOrder[i]]
  {
    assert RoleOrder[..i + 1] == RoleOrder[..i] + [RoleOrder[i]];
    PresentAppend(sr, RoleOrder[..i], [RoleOrder[i]]);
  }

  /** After roles that all decoded, one more role decodes, fails on base64 or panics, and reaches the decoder either way. */
  lemma RoleStep(sr: SwapResponse, done: seq<Role>, r: Role, codec: Codec)
    requires DecodeRoles(sr, done, codec).Decoded?
    ensures DecodeRoles(sr, done + [r], codec) ==
      match DecodePayload(sr, r, codec)
      case Parsed(tx) => Decoded(DecodeRoles(sr, done, codec).txs + [tx])
      case NotBase64(e) => DecodeError(e)
      case NotTransaction => DecodePanic(r)
    ensures Reached(sr, done + [r], codec) == Reached(sr, done, codec) + [r]
  {
    DecodeRolesAppend(sr, done, [r], codec);
    ReachedAppend(sr, done, [r], codec);
    assert DecodeRoles(sr, [r][1..], codec) == Decoded([]);
    assert Reached(sr, [r][1..], codec) == [];
  }

  /** Once decoding of the first n roles has failed, the roles after them change nothing. */
  lemma RestUnreached(sr: SwapResponse, n: nat, codec: Codec)
    requires n <= 3
    requires !DecodeRoles(sr, Present(sr, RoleOrder[..n]), codec).Decoded?
    ensures DecodeResponse(sr, codec) == DecodeRoles(sr, Present(sr, RoleOrder[..n]), codec)
    ensures Reached(sr, Present(sr, RoleOrder), codec) == Reached(sr, Present(sr, RoleOrder[..n]), codec)
  {
    assert RoleOrder == RoleOrder[..n] + RoleOrder[n..];
    PresentAppend(sr, RoleOrder[..n], RoleOrder[n..]);
    DecodeRolesAppend(sr, Present(sr, RoleOrder[..n]), Present(sr, RoleOrder[n..]), codec);
    ReachedAppend(sr, Present(sr, RoleOrder[..n]), Present(sr, RoleOrder[n..]), codec);
  }

  // ---------------------------------------------------------------------------
  // Filtering and role order

  lemma {:induction false} PresentAppend(sr: SwapResponse, xs: seq<Role>, ys: seq<Role>)
    ensures Present(sr, xs + ys) == Present(sr, xs) + Present(sr, ys)
  {
    if xs == [] {
      assert xs + ys == ys;
    } else {
      assert (xs + ys)[1..] == xs[1..] + ys;
      PresentAppend(sr, xs[1..], ys);
    }
  }

  /**
   * Exactly the roles with a non-empty payload are kept, in their order in `rs`:
   * if `rs` lists roles in strictly increasing rank, so does the result, and it is
   * no longer than `rs`.
   */
  lemma {:induction false} PresentKeepsOrder(sr: SwapResponse, rs: seq<Role>)
    requires forall j, k :: 0 <= j < k < |rs| ==> Rank(rs[j]) < Rank(rs[k])
    ensures forall r :: r in Present(sr, rs) <==> r in rs && Payload(sr, r) != ""
    ensures forall j, k :: 0 <= j < k < |Present(sr, rs)| ==> Rank(Present(sr, rs)[j]) < Rank(Present(sr, rs)[k])
    ensures |Present(sr, rs)| <= |rs|
  {
    if rs != [] {
      PresentKeepsOrder(sr, rs[1..]);
      var rest := Present(sr, rs[1..]);
      forall r | r in rest ensures Rank(rs[0]) < Rank(r) {
        var k :| 0 <= k < |rs[1..]| && rs[1..][k] == r;
        assert rs[k + 1] == r;
      }
    }
  }

  /**
   * decode keeps the role order setup, swap, cleanup: the roles it decodes are
   * exactly those with a non-empty payload, at most three, and an earlier role
   * never comes after a later one.
   */
  lemma RolesInOrder(sr: SwapResponse)
    ensures forall r :: r in Present(sr, RoleOrder) <==> Payload(sr, r) != ""
    ensures forall j, k :: 0 <= j < k < |Present(sr, RoleOrder)| ==>
              Rank(Present(sr, RoleOrder)[j]) < Rank(Present(sr, RoleOrder)[k])
    ensures |Present(sr, RoleOrder)| <= 3
  {
    forall r ensures r in RoleOrder { assert RoleOrder[Rank(r)] == r; }
    PresentKeepsOrder(sr, RoleOrder);
  }

  // ---------------------------------------------------------------------------
  // Fail-fast decoding

  lemma {:induction false} DecodeRolesAppend(sr: SwapResponse, xs: seq<Role>, ys: seq<Role>, codec: Codec)
    ensures DecodeRoles(sr, xs + ys, codec) ==
      match DecodeRoles(sr, xs, codec)
      case Decoded(a) => (match DecodeRoles(sr, ys, codec) case Decoded(b) => Decoded(a + b) case other => other)
      case other => other
  {
    if xs == [] {
      assert xs + ys == ys;
    } else {
      assert (xs + ys)[0] == xs[0] && (xs + ys)[1..] == xs[1..] + ys;
      DecodeRolesAppend(sr, xs[1..], ys, codec);
      var first := DecodePayload(sr, xs[0], codec);
      var left, right := DecodeRoles(sr, xs[1..], codec), DecodeRoles(sr, ys, codec);
      if first.Parsed? && left.Decoded? && right.Decoded? {
        assert [first.tx] + (left.txs + right.txs) == ([first.tx] + left.txs) + right.txs;
      }
    }
  }

  lemma {:induction false} ReachedAppend(sr: SwapResponse, xs: seq<Role>, ys: seq<Role>, codec: Codec)
    ensures Reached(sr, xs + ys, codec) ==
      if DecodeRoles(sr, xs, codec).Decoded? then Reached(sr, xs, codec) + Reached(sr, ys, codec)
      else Reached(sr, xs, codec)
  {
    if xs == [] {
      assert xs + ys == ys;
    } else {
      assert (xs + ys)[1..] == xs[1..] + ys;
      ReachedAppend(sr, xs[1..], ys, codec);
    }
  }

  /**
   * Decoding succeeds exactly when every payload decodes, and then yields one
   * transaction per role, the i-th parsed from the i-th role's payload.
   */
  lemma {:induction false} DecodedIff(sr: SwapResponse, rs: seq<Role>, codec: Codec)
    ensures DecodeRoles(sr, rs, codec).Decoded? <==> forall j :: 0 <= j < |rs| ==> DecodePayload(sr, rs[j], codec).Parsed?
    ensures DecodeRoles(sr, rs, codec).Decoded? ==>
              |DecodeRoles(sr, rs, codec).txs| == |rs| &&
              forall j :: 0 <= j < |rs| ==> DecodePayload(sr, rs[j], codec) == Parsed(DecodeRoles(sr, rs, codec).txs[j])
  {
    if rs != [] {
      DecodedIff(sr, rs[1..], codec);
      if DecodeRoles(sr, rs, codec).Decoded? {
        var txs := DecodeRoles(sr, rs, codec).txs;
        forall j | 0 <= j < |rs| ensures DecodePayload(sr, rs[j], codec) == Parsed(txs[j]) {
          if j > 0 { assert rs[1..][j - 1] == rs[j]; }
        }
      } else if DecodePayload(sr, rs[0], codec).Parsed? {
        var k :| 0 <= k < |rs[1..]| && !DecodePayload(sr, rs[1..][k], codec).Parsed?;
        assert rs[k + 1] == rs[1..][k];
      }
    }
  }

  /**
   * decode returns the base64 error `e` exactly when some payload is not valid
   * base64 with error `e` and every payload before it decoded, even though those
   * earlier transactions were already parsed.
   */
  lemma {:induction false} DecodeErrorIff(sr: SwapResponse, rs: seq<Role>, codec: Codec, e: Error)
    ensures DecodeRoles(sr, rs, codec) == DecodeError(e) <==>
      exists k :: 0 <= k < |rs| && DecodePayload(sr, rs[k], codec) == NotBase64(e) &&
                  forall j :: 0 <= j < k ==> DecodePayload(sr, rs[j], codec).Parsed?
  {
    if rs != [] {
      DecodeErrorIff(sr, rs[1..], codec, e);
      if DecodeRoles(sr, rs, codec) == DecodeError(e) {
        if DecodePayload(sr, rs[0], codec).Parsed? {
          var k :| 0 <= k < |rs[1..]| && DecodePayload(sr, rs[1..][k], codec) == NotBase64(e) &&
                   forall j :: 0 <= j < k ==> DecodePayload(sr, rs[1..][j], codec).Parsed?;
          assert rs[k + 1] == rs[1..][k];
          forall j | 0 <= j < k + 1 ensures DecodePayload(sr, rs[j], codec).Parsed? {
            if j > 0 { assert rs[j] == rs[1..][j - 1]; }
          }
        } else {
          assert DecodePayload(sr, rs[0], codec) == NotBase64(e);
        }
      } else {
        forall k | 0 <= k < |rs| && DecodePayload(sr, rs[k], codec) == NotBase64(e)
          ensures exists j :: 0 <= j < k && !DecodePayload(sr, rs[j], codec).Parsed?
        {
          if k > 0 && DecodePayload(sr, rs[0], codec).Parsed? {
            assert rs[1..][k - 1] == rs[k];
            var j :| 0 <= j < k - 1 && !DecodePayload(sr, rs[1..][j], codec).Parsed?;
            assert rs[j + 1] == rs[1..][j];
          }
        }
      }
    }
  }

  /**
   * decode panics in the transaction decoder on role r exactly when r's payload
   * is valid base64 but not a transaction and every present payload before it
   * decoded.
   */
  lemma {:induction false} DecodePanicIff(sr: SwapResponse, rs: seq<Role>, codec: Codec, r: Role)
    ensures DecodeRoles(sr, rs, codec) == DecodePanic(r) <==>
      exists k :: 0 <= k < |rs| && rs[k] == r && DecodePayload(sr, rs[k], codec) == NotTransaction &&
                  forall j :: 0 <= j < k ==> DecodePayload(sr, rs[j], codec).Parsed?
  {
    if rs != [] {
      DecodePanicIff(sr, rs[1..], codec, r);
      if DecodeRoles(sr, rs, codec) == DecodePanic(r) {
        if DecodePayload(sr, rs[0], codec).Parsed? {
          var k :| 0 <= k < |rs[1..]| && rs[1..][k] == r && DecodePayload(sr, rs[1..][k], codec) == NotTransaction &&
                   forall j :: 0 <= j < k ==> DecodePayload(sr, rs[1..][j], codec).Parsed?;
          assert rs[k + 1] == rs[1..][k];
          forall j | 0 <= j < k + 1 ensures DecodePayload(sr, rs[j], codec).Parsed? {
            if j > 0 { assert rs[j] == rs[1..][j - 1]; }
          }
        } else {
          assert rs[0] == r && DecodePayload(sr, rs[0], codec) == NotTransaction;
        }
      } else {
        forall k | 0 <= k < |rs| && rs[k] == r && DecodePayload(sr, rs[k], codec) == NotTransaction
          ensures exists j :: 0 <= j < k && !DecodePayload(sr, rs[j], codec).Parsed?
        {
          if k > 0 && DecodePayload(sr, rs[0], codec).Parsed? {
            assert rs[1..][k - 1] == rs[k];
            var j :| 0 <= j < k - 1 && !DecodePayload(sr, rs[1..][j], codec).Parsed?;
            assert rs[j + 1] == rs[1..][j];
          }
        }
      }
    }
  }

  /** The payloads that reach the base64 decoder are a prefix of `rs`, and all of `rs` when decoding succeeds. */
  lemma {:induction false} ReachedPrefix(sr: SwapResponse, rs: seq<Role>, codec: Codec)
    ensures |Reached(sr, rs, codec)| <= |rs| && Reached(sr, rs, codec) == rs[..|Reached(sr, rs, codec)|]
    ensures DecodeRoles(sr, rs, codec).Decoded? ==> Reached(sr, rs, codec) == rs
  {
    if rs != [] {
      ReachedPrefix(sr, rs[1..], codec);
      assert rs == [rs[0]] + rs[1..];
    }
  }

  /**
   * decode never hands an empty payload to the base64 decoder: every payload it
   * tries is non-empty, and when it succeeds it has tried every present one.
   */
  lemma NeverDecodesEmpty(sr: SwapResponse, codec: Codec)
    ensures forall r :: r in Reached(sr, Present(sr, RoleOrder), codec) ==> Payload(sr, r) != ""
    ensures DecodeResponse(sr, codec).Decoded? ==> Reached(sr, Present(sr, RoleOrder), codec) == Present(sr, RoleOrder)
  {
    var p := Present(sr, RoleOrder);
    RolesInOrder(sr);
    ReachedPrefix(sr, p, codec);
    var t := Reached(sr, p, codec);
    forall r | r in t ensures Payload(sr, r) != "" {
      var k :| 0 <= k < |t| && t[k] == r;
      assert p[k] == r;
    }
  }
}
