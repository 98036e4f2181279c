/**
 * The parts of the Solana client library that the swap pipeline relies on:
 * keys, messages, transactions, the errors that reach the pipeline, and the
 * library's Transaction.Sign, which asks a key selector for the private key of
 * every signer the message requires.
 */
module Solana {
  import opened Wrappers

  newtype byte = b: int | 0 <= b < 256

  /** An ed25519 public key (32 bytes). */
  type PublicKey = k: seq<byte> | |k| == 32 witness seq(32, _ => 0 as byte)

  /** A private key in Solana's 64-byte layout: the seed followed by the public key. */
  type PrivateKey = k: seq<byte> | |k| == 64 witness seq(64, _ => 0 as byte)

  /** A recent blockhash, the freshness token a transaction must carry. */
  type Hash = seq<byte>

  type Signature = seq<byte>

  /** The public half of a private key: its last 32 bytes. */
  function PublicKeyOf(k: PrivateKey): PublicKey
  {
    k[32..]
  }

  /**
   * A transaction message. `requiredSigners` are the account keys the header
   * marks as signers, in order; `body` stands for the remaining accounts and the
   * instructions, which the pipeline never looks into.
   */
  datatype Message = Message(requiredSigners: seq<PublicKey>, recentBlockhash: Hash, body: seq<byte>)

  datatype Transaction = Transaction(signatures: seq<Signature>, message: Message)

  /** How often the cluster must have confirmed a block or a transaction. */
  datatype Commitment = Processed | Confirmed | Finalized

  datatype Error =
    | CorruptInput(offset: nat)        // base64: illegal data at this input byte
    | SignerKeyNotFound(key: PublicKey) // Transaction.Sign: the selector had no key for a signer
    | Rpc(reason: string)               // any failure reported by the RPC or websocket clients

  /**
   * The signatures Transaction.Sign produces over `msg` for the signer keys `keys`:
   * one per key, in order, made with the key the selector returns; the first key
   * the selector has no private key for stops signing with SignerKeyNotFound.
   */
  function Signatures(msg: Message, keys: seq<PublicKey>, selector: PublicKey -> Option<PrivateKey>,
                      ed25519: (Message, PrivateKey) -> Signature): Result<seq<Signature>, Error>
  {
    if keys == [] then Ok([])
    else match selector(keys[0])
      case None => Err(SignerKeyNotFound(keys[0]))
      case Some(k) =>
        match Signatures(msg, keys[1..], selector, ed25519)
        case Ok(rest) => Ok([ed25519(msg, k)] + rest)
        case Err(e) => Err(e)
  }

  /** Transaction.Sign: appends one signature per required signer to the transaction. */
  function Sign(tx: Transaction, selector: PublicKey -> Option<PrivateKey>,
                ed25519: (Message, PrivateKey) -> Signature): Result<Transaction, Error>
  {
    match Signatures(tx.message, tx.message.requiredSigners, selector, ed25519)
    case Ok(sigs) => Ok(tx.(signatures := tx.signatures + sigs))
    case Err(e) => Err(e)
  }
}
