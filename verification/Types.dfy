/** Headers, transactions, blocks, and the foreign functions the node calls on them. */
module Types {
  import opened Basics

  type PublicKey = seq<Byte>
  datatype Signature = Signature(s: nat, r: nat)

  /** Proof-of-work difficulties are numbers of leading zero bits. */
  type Difficulty = d: nat | d <= 256

  datatype Header = Header(
    version: U32,
    dataHash: Hash,
    prevBlockHash: Hash,
    stateRoot: Hash,
    height: U32,
    timestamp: int,
    nonce: U64,
    difficulty: Difficulty,
    coinbase: Address)

  datatype Transaction = Transaction(
    data: seq<Byte>,
    to: Address,
    value: U64,
    nonce: U64,
    gasLimit: U64,
    gasPrice: U64,
    from: PublicKey,
    signature: Option<Signature>)

  datatype Block = Block(
    header: Header,
    transactions: seq<Transaction>,
    evidence: seq<Header>,
    validator: PublicKey,
    signature: Option<Signature>)

  /** Sizes a Go slice can have. */
  type Size = n: nat | n < TWO63

  /** SHA-256, Keccak, gob encodings, ECDSA and the largest slice the runtime will allocate. */
  datatype Host = Host(
    sha256: seq<Byte> -> Hash,
    keccak256: seq<Byte> -> Word,
    headerBytes: Header -> seq<Byte>,
    txBytes: Transaction -> seq<Byte>,
    addressOf: PublicKey -> Address,
    verify: (PublicKey, seq<Byte>, Signature) -> bool,
    allocLimit: Size)
  {
    function HeaderHash(h: Header): Hash { sha256(headerBytes(h)) }

    /** Transactions are hashed by their payload alone. */
    function TxHash(tx: Transaction): Hash { sha256(tx.data) }

    function Sender(tx: Transaction): Address { addressOf(tx.from) }

    predicate TxVerifies(tx: Transaction) {
      tx.signature.Some? && verify(tx.from, tx.data, tx.signature.value)
    }

    function TxEncodings(txs: seq<Transaction>): seq<Byte> {
      if txs == [] then [] else txBytes(txs[0]) + TxEncodings(txs[1..])
    }

    function HeaderEncodings(hs: seq<Header>): seq<Byte> {
      if hs == [] then [] else headerBytes(hs[0]) + HeaderEncodings(hs[1..])
    }

    function DataHash(txs: seq<Transaction>, evidence: seq<Header>): Hash {
      sha256(TxEncodings(txs) + HeaderEncodings(evidence))
    }

    predicate BlockVerifies(b: Block) {
      && b.signature.Some?
      && verify(b.validator, headerBytes(b.header), b.signature.value)
      && (forall tx <- b.transactions :: TxVerifies(tx))
      && DataHash(b.transactions, b.evidence) == b.header.dataHash
    }
  }
}
