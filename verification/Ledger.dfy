/** The chain, its store and its world state as one value, with `AddBlock` as the transition. */
module Ledger {
  import opened Basics
  import opened Types
  import opened Accounts
  import opened Machine

  datatype Engine = NoEngine | PoW(target: Difficulty)

  datatype Store = Store(
    blocks: map<U32, Block>,
    byHash: map<Hash, Block>,
    txByHash: map<Hash, Transaction>)

  datatype Ledger = Ledger(
    headers: seq<Header>,
    world: World,
    store: Store,
    totalDifficulty: nat,
    engine: Engine)

  datatype ChainError = AlreadyContains | TooHigh | NoSuchHeader | BadPrevHash | BadProof | Unverified

  datatype LedgerError =
    | Invalid(reason: ChainError)
    | VmFailed(vm: VmError)
    | TransferFailed(transfer: TransferError)

  /** How a call ends. `Crashed` is a panic; `Hung` is a contract run that never returns or, in a call
      watched for some number of turns, has not returned by then. The state given with `Hung` is the one
      the hanging run started from; a watched call has the state at that moment. */
  datatype Verdict = Accepted | Rejected(error: LedgerError) | Crashed | Hung

  datatype Executed = Executed(w: World, verdict: Verdict)

  datatype Result = Result(l: Ledger, verdict: Verdict)

  // ---- heights, uint32 throughout ------------------------------------------------

  function Height(l: Ledger): (h: U32)
    ensures 1 <= |l.headers| <= TWO32 ==> h == |l.headers| - 1
  {
    (|l.headers| - 1) % TWO32
  }

  function HeaderAt(l: Ledger, height: U32): Option<Header> {
    if height < |l.headers| % TWO32 then Some(l.headers[height]) else None
  }

  // ---- validation ----------------------------------------------------------------

  /** The hash, read as a number, is at most two to the number of bits left free. */
  predicate MeetsTarget(host: Host, h: Header, difficulty: Difficulty) {
    host.HeaderHash(h) <= Pow2(256 - difficulty)
  }

  predicate EngineAccepts(host: Host, engine: Engine, h: Header) {
    engine.PoW? ==> MeetsTarget(host, h, h.difficulty)
  }

  function Validate(host: Host, l: Ledger, b: Block): Option<ChainError> {
    if b.header.height <= Height(l) then Some(AlreadyContains)
    else if b.header.height != (Height(l) + 1) % TWO32 then Some(TooHigh)
    else
      match HeaderAt(l, (b.header.height - 1) % TWO32)
      case None => Some(NoSuchHeader)
      case Some(prev) =>
        if host.HeaderHash(prev) != b.header.prevBlockHash then Some(BadPrevHash)
        else if !EngineAccepts(host, l.engine, b.header) then Some(BadProof)
        else if !host.BlockVerifies(b) then Some(Unverified)
        else None
  }

  // ---- execution ------------------------------------------------------------------

  function CallOf(host: Host, tx: Transaction): Call {
    Call(host, tx.data, [], tx.to, tx.value, tx.gasLimit)
  }

  /** The part of a transaction after its contract code: move the value, count the nonce. */
  function Settle(host: Host, w: World, tx: Transaction): Executed {
    if tx.value > 0 then
      match Transfer(w, host.Sender(tx), tx.to, tx.value)
      case Refused(e) => Executed(w, Rejected(TransferFailed(e)))
      case Moved(w') => Executed(CountNonce(host, w', tx), Accepted)
    else Executed(CountNonce(host, w, tx), Accepted)
  }

  function CountNonce(host: Host, w: World, tx: Transaction): World {
    if tx.signature.Some? then IncrementNonce(w, host.Sender(tx)) else w
  }

  /** What is left of a transaction when the run of its code stands at `r`. The code works on the
      live state: its writes stay even when it fails. */
  function Conclude(host: Host, tx: Transaction, r: Status): Executed {
    match r
    case Running(s) => Executed(s.world, Hung)
    case Halted(s, Panicked) => Executed(s.world, Crashed)
    case Halted(s, Failed(e)) => Executed(s.world, Rejected(VmFailed(e)))
    case Halted(s, Returned(_)) => Settle(host, s.world, tx)
  }

  ghost function ExecuteTx(host: Host, w: World, tx: Transaction): Executed {
    if |tx.data| > 0 then Conclude(host, tx, Run(CallOf(host, tx), Start(w)))
    else Settle(host, w, tx)
  }

  ghost function ExecuteTxs(host: Host, w: World, txs: seq<Transaction>): Executed
    decreases |txs|
  {
    if txs == [] then Executed(w, Accepted)
    else
      var r := ExecuteTx(host, w, txs[0]);
      if r.verdict.Accepted? then ExecuteTxs(host, r.w, txs[1..]) else r
  }

  /** The same two, watched for `turns` turns of each contract run. */
  function ExecuteTxFor(host: Host, w: World, tx: Transaction, turns: nat): Executed {
    if |tx.data| > 0 then Conclude(host, tx, RunFor(CallOf(host, tx), Start(w), turns))
    else Settle(host, w, tx)
  }

  function ExecuteTxsFor(host: Host, w: World, txs: seq<Transaction>, turns: nat): Executed
    decreases |txs|
  {
    if txs == [] then Executed(w, Accepted)
    else
      var r := ExecuteTxFor(host, w, txs[0], turns);
      if r.verdict.Accepted? then ExecuteTxsFor(host, r.w, txs[1..], turns) else r
  }

  const REWARD: U64 := 5

  // ---- storing --------------------------------------------------------------------

  function IndexTxs(host: Host, m: map<Hash, Transaction>, txs: seq<Transaction>)
    : map<Hash, Transaction>
    decreases |txs|
  {
    if txs == [] then m
    else IndexTxs(host, m[host.TxHash(txs[0]) := txs[0]], txs[1..])
  }

  function PutBlock(host: Host, st: Store, b: Block): Store {
    Store(st.blocks[b.header.height := b],
          st.byHash[host.HeaderHash(b.header) := b],
          IndexTxs(host, st.txByHash, b.transactions))
  }

  function Weight(h: Header): nat { Pow2(h.difficulty) }

  function Append(host: Host, l: Ledger, b: Block): Ledger {
    l.(headers := l.headers + [b.header],
       totalDifficulty := l.totalDifficulty + (if l.engine.PoW? then Weight(b.header) else 0),
       store := PutBlock(host, l.store, b))
  }

  /** A validated block whose transactions were executed with result `r`. */
  function Finish(host: Host, l: Ledger, b: Block, r: Executed): Result {
    if !r.verdict.Accepted? then Result(l.(world := r.w), r.verdict)
    else
      var w := AddBalance(r.w, b.header.coinbase, REWARD);
      Result(Append(host, l.(world := w), b), Accepted)
  }

  /** The transition. Neither engine here slashes, so evidence has no effect. */
  ghost function AddBlock(host: Host, l: Ledger, b: Block): Result {
    match Validate(host, l, b)
    case Some(e) => Result(l, Rejected(Invalid(e)))
    case None => Finish(host, l, b, ExecuteTxs(host, l.world, b.transactions))
  }

  function AddBlockFor(host: Host, l: Ledger, b: Block, turns: nat): Result {
    match Validate(host, l, b)
    case Some(e) => Result(l, Rejected(Invalid(e)))
    case None => Finish(host, l, b, ExecuteTxsFor(host, l.world, b.transactions, turns))
  }

  const EMPTY_STORE := Store(map[], map[], map[])

  /** A chain opened on an empty store: genesis is stored but neither validated nor executed. */
  function NewChain(host: Host, genesis: Block): Ledger {
    Append(host, Ledger([], EMPTY_WORLD, EMPTY_STORE, 0, NoEngine), genesis)
  }

  // ---- runs --------------------------------------------------------------------------

  datatype Op = Add(block: Block) | SetEngine(engine: Engine)

  ghost function Apply(host: Host, l: Ledger, op: Op): Result {
    match op
    case Add(b) => AddBlock(host, l, b)
    case SetEngine(e) => Result(l.(engine := e), Accepted)
  }

  /** The call came back, with or without an error. */
  predicate CameBack(v: Verdict) { v.Accepted? || v.Rejected? }

  /** A run stops at a call that does not come back: a panic ends the program, and a call that hangs
      keeps the chain locked. The verdict is that of the last call made. */
  ghost function Play(host: Host, l: Ledger, ops: seq<Op>): Result {
    if ops == [] then Result(l, Accepted)
    else
      var r := Play(host, l, ops[..|ops| - 1]);
      if CameBack(r.verdict) then Apply(host, r.l, ops[|ops| - 1]) else r
  }

  ghost function After(host: Host, l: Ledger, ops: seq<Op>): Ledger { Play(host, l, ops).l }

  /** Every call so far came back. */
  ghost predicate Up(host: Host, l: Ledger, ops: seq<Op>) { CameBack(Play(host, l, ops).verdict) }

  lemma PlayNext(host: Host, l: Ledger, ops: seq<Op>)
    requires ops != []
    ensures var before := ops[..|ops| - 1];
            var r := Apply(host, After(host, l, before), ops[|ops| - 1]);
            && After(host, l, ops) == (if Up(host, l, before) then r.l else After(host, l, before))
            && (Up(host, l, ops) <==> Up(host, l, before) && CameBack(r.verdict))
  {}

  // ---- scanning the chain -----------------------------------------------------------------

  function Find<K, V>(m: map<K, V>, k: K): Option<V> {
    if k in m then Some(m[k]) else None
  }

  function LastBlock(host: Host, chain: seq<Block>, h: Hash): Option<Block> {
    if chain == [] then None
    else
      var b := chain[|chain| - 1];
      if host.sha256(host.headerBytes(b.header)) == h then Some(b)
      else LastBlock(host, chain[..|chain| - 1], h)
  }

  function LastTx(host: Host, txs: seq<Transaction>, h: Hash): Option<Transaction> {
    if txs == [] then None
    else
      var tx := txs[|txs| - 1];
      if host.sha256(tx.data) == h then Some(tx)
      else LastTx(host, txs[..|txs| - 1], h)
  }

  function AllTxs(chain: seq<Block>): seq<Transaction> {
    if chain == [] then []
    else AllTxs(chain[..|chain| - 1]) + chain[|chain| - 1].transactions
  }

  /** The stored blocks in height order. */
  ghost function Chain(l: Ledger): (c: seq<Block>)
    requires Stored(l)
    ensures |c| == |l.headers|
  {
    seq(|l.headers|, i requires 0 <= i < |l.headers| => l.store.blocks[i])
  }

  /** Stored heights are exactly those of the headers, and each block carries its header. */
  ghost predicate Stored(l: Ledger) {
    && 1 <= |l.headers| <= TWO32
    && (forall i: U32 :: i in l.store.blocks <==> i < |l.headers|)
    && (forall i :: 0 <= i < |l.headers| ==>
          && l.store.blocks[i].header == l.headers[i]
          && l.headers[i].height == i)
  }

  ghost predicate Linked(host: Host, headers: seq<Header>) {
    forall i :: 1 <= i < |headers| ==>
      headers[i].prevBlockHash == host.sha256(host.headerBytes(headers[i - 1]))
  }

  ghost predicate Indexed(host: Host, l: Ledger)
    requires Stored(l)
  {
    && (forall h: Hash :: Find(l.store.byHash, h) == LastBlock(host, Chain(l), h))
    && (forall h: Hash :: Find(l.store.txByHash, h) == LastTx(host, AllTxs(Chain(l)), h))
  }

  /** The signature on the transaction's payload is its sender's. */
  predicate SignedBySender(host: Host, tx: Transaction) {
    tx.signature.Some? && host.verify(tx.from, tx.data, tx.signature.value)
  }

  function TxParts(host: Host, txs: seq<Transaction>): (parts: seq<seq<Byte>>)
    ensures |parts| == |txs| && forall i :: 0 <= i < |txs| ==> parts[i] == host.txBytes(txs[i])
  {
    seq(|txs|, i requires 0 <= i < |txs| => host.txBytes(txs[i]))
  }

  function HeaderParts(host: Host, hs: seq<Header>): (parts: seq<seq<Byte>>)
    ensures |parts| == |hs| && forall i :: 0 <= i < |hs| ==> parts[i] == host.headerBytes(hs[i])
  {
    seq(|hs|, i requires 0 <= i < |hs| => host.headerBytes(hs[i]))
  }

  /** What the data hash covers: the transactions' encodings in order, then the evidence's. */
  function Body(host: Host, b: Block): seq<Byte> {
    Concat(TxParts(host, b.transactions)) + Concat(HeaderParts(host, b.evidence))
  }

  /** The block's signature is its validator's, every transaction's is its sender's, and the header
      commits to the body. */
  predicate Authentic(host: Host, b: Block) {
    && b.signature.Some? && host.verify(b.validator, host.headerBytes(b.header), b.signature.value)
    && (forall tx <- b.transactions :: SignedBySender(host, tx))
    && b.header.dataHash == host.sha256(Body(host, b))
  }

  ghost predicate Verified(host: Host, l: Ledger)
    requires Stored(l)
  {
    forall i :: 1 <= i < |l.headers| ==> Authentic(host, l.store.blocks[i])
  }

  /** What every run keeps. */
  ghost predicate Valid(host: Host, l: Ledger) {
    && Stored(l)
    && Linked(host, l.headers)
    && Indexed(host, l)
    && Verified(host, l)
  }
}
