/** Building, sealing and signing a block, and checking one. */
module Mining {
  import opened Basics
  import opened Types
  import opened Ledger
  import opened LedgerRuns

  /** A private key: its public half and the signatures it makes. */
  datatype Wallet = Wallet(publicKey: PublicKey, sign: seq<Byte> -> Signature)

  /** Verification accepts what the key signs; nothing more is assumed of signatures. */
  ghost predicate Honest(host: Host, wallet: Wallet) {
    forall msg: seq<Byte> :: host.verify(wallet.publicKey, msg, wallet.sign(msg))
  }

  // ---- data hashes and verification ------------------------------------------------

  lemma {:induction false} TxEncodingsAppend(host: Host, txs: seq<Transaction>, tx: Transaction)
    ensures host.TxEncodings(txs + [tx]) == host.TxEncodings(txs) + host.txBytes(tx)
    decreases |txs|
  {
    if txs == [] {
      assert txs + [tx] == [tx];
      assert host.TxEncodings([tx][1..]) == [];
    } else {
      TxEncodingsAppend(host, txs[1..], tx);
      assert (txs + [tx])[1..] == txs[1..] + [tx];
    }
  }

  lemma {:induction false} HeaderEncodingsAppend(host: Host, hs: seq<Header>, h: Header)
    ensures host.HeaderEncodings(hs + [h]) == host.HeaderEncodings(hs) + host.headerBytes(h)
    decreases |hs|
  {
    if hs == [] {
      assert hs + [h] == [h];
      assert host.HeaderEncodings([h][1..]) == [];
    } else {
      HeaderEncodingsAppend(host, hs[1..], h);
      assert (hs + [h])[1..] == hs[1..] + [h];
    }
  }

  method CalculateDataHash(host: Host, txs: seq<Transaction>, evidence: seq<Header>) returns (h: Hash)
    ensures h == host.DataHash(txs, evidence)
    ensures h == host.sha256(Concat(TxParts(host, txs)) + Concat(HeaderParts(host, evidence)))
  {
    TxEncodingsAre(host, txs);
    HeaderEncodingsAre(host, evidence);
    hide Concat, TxParts, HeaderParts;
    var buf: seq<Byte> := [];
    var i := 0;
    while i < |txs|
      invariant 0 <= i <= |txs|
      invariant buf == host.TxEncodings(txs[..i])
    {
      TxEncodingsAppend(host, txs[..i], txs[i]);
      assert txs[..i + 1] == txs[..i] + [txs[i]];
      buf := buf + host.txBytes(txs[i]);
      i := i + 1;
    }
    assert txs[..i] == txs;
    var body := buf;
    i := 0;
    while i < |evidence|
      invariant 0 <= i <= |evidence|
      invariant buf == body + host.HeaderEncodings(evidence[..i])
    {
      HeaderEncodingsAppend(host, evidence[..i], evidence[i]);
      assert evidence[..i + 1] == evidence[..i] + [evidence[i]];
      buf := buf + host.headerBytes(evidence[i]);
      i := i + 1;
    }
    assert evidence[..i] == evidence;
    h := host.sha256(buf);
  }

  method VerifyBlock(host: Host, b: Block) returns (ok: bool)
    ensures ok == host.BlockVerifies(b)
    ensures ok <==> Authentic(host, b)
  {
    hide Authentic;
    VerifiesExact(host, b);
    if b.signature.None? { return false; }
    if !host.verify(b.validator, host.headerBytes(b.header), b.signature.value) { return false; }
    var i := 0;
    while i < |b.transactions|
      invariant 0 <= i <= |b.transactions|
      invariant forall tx <- b.transactions[..i] :: host.TxVerifies(tx)
    {
      if !host.TxVerifies(b.transactions[i]) { return false; }
      i := i + 1;
    }
    assert b.transactions[..i] == b.transactions;
    var h := CalculateDataHash(host, b.transactions, b.evidence);
    return h == b.header.dataHash;
  }

  // ---- drafts -----------------------------------------------------------------------------

  function Nobody(): Address { Zeros(20) }

  /** The header a new block starts from. */
  function NextHeader(host: Host, prev: Header, txs: seq<Transaction>, timestamp: int): Header {
    Header(1, host.DataHash(txs, []), host.HeaderHash(prev), 0, (prev.height + 1) % TWO32,
           timestamp, 0, 0, Nobody())
  }

  class Draft {
    var header: Header
    const transactions: seq<Transaction>
    var validator: PublicKey
    var signature: Option<Signature>

    function ToBlock(): Block
      reads this
    {
      Block(header, transactions, [], validator, signature)
    }

    constructor (host: Host, prev: Header, txs: seq<Transaction>, timestamp: int)
      ensures header == NextHeader(host, prev, txs, timestamp) && transactions == txs
    {
      var dataHash := CalculateDataHash(host, txs, []);
      header := Header(1, dataHash, host.HeaderHash(prev), 0, (prev.height + 1) % TWO32,
                       timestamp, 0, 0, Nobody());
      transactions := txs;
      validator, signature := [], None;
    }

    method Sign(host: Host, wallet: Wallet)
      modifies this
      ensures header == old(header)
      ensures validator == wallet.publicKey
      ensures signature == Some(wallet.sign(host.headerBytes(header)))
    {
      signature := Some(wallet.sign(host.headerBytes(header)));
      validator := wallet.publicKey;
    }
  }

  // ---- proof of work ------------------------------------------------------------------------

  /** The header's hash, read as a number, times 2^difficulty is at most 2^256. */
  predicate HasWork(host: Host, h: Header, difficulty: Difficulty) {
    host.sha256(host.headerBytes(h)) * Pow2(difficulty) <= TWO256
  }

  datatype SealResult = Sealed | TimedOut | NoNonce

  class PoWEngine {
    const targetDifficulty: Difficulty

    constructor (difficulty: Difficulty)
      ensures targetDifficulty == if difficulty == 0 then 16 else difficulty
    {
      targetDifficulty := if difficulty == 0 then 16 else difficulty;
    }

    /** Holds a header to the difficulty it claims. */
    method VerifyHeader(host: Host, h: Header) returns (ok: bool)
      ensures ok == EngineAccepts(host, PoW(targetDifficulty), h)
      ensures ok <==> HasWork(host, h, h.difficulty)
    {
      var target := Pow2(256 - h.difficulty);
      TargetMeans(host.HeaderHash(h), h.difficulty);
      ok := host.HeaderHash(h) <= target;
    }

    method Prepare(d: Draft)
      modifies d`header
      ensures d.header == old(d.header).(difficulty := targetDifficulty)
    {
      d.header := d.header.(difficulty := targetDifficulty);
    }

    /** Tries nonces upward from zero. Nothing but the nonce changes; success means the least nonce
        that meets the target, and every failure means that no smaller one did. `late` is the clock. */
    method Seal(host: Host, d: Draft, late: nat -> bool) returns (r: SealResult)
      modifies d`header
      ensures d.header == old(d.header).(nonce := d.header.nonce)
      ensures forall n: U64 :: n < d.header.nonce ==>
                !HasWork(host, old(d.header).(nonce := n), targetDifficulty)
      ensures r.Sealed? <==> HasWork(host, d.header, targetDifficulty)
      ensures r.NoNonce? ==> d.header.nonce == TWO64 - 2
      ensures r.TimedOut? ==> (d.header.nonce + 1) % 100000 == 0
    {
      var target := Pow2(256 - targetDifficulty);
      ghost var start := d.header;
      forall h: Header ensures HasWork(host, h, targetDifficulty) <==> host.HeaderHash(h) <= target {
        TargetMeans(host.HeaderHash(h), targetDifficulty);
      }
      hide HasWork, Pow2;
      var n: U64 := 0;
      while n < TWO64 - 1
        invariant n == 0 ==> d.header == start
        invariant n > 0 ==> d.header == start.(nonce := n - 1)
        invariant forall k: U64 :: k < n ==> !HasWork(host, start.(nonce := k), targetDifficulty)
      {
        d.header := d.header.(nonce := n);
        if host.HeaderHash(d.header) <= target { return Sealed; }
        n := n + 1;
        if n % 100000 == 0 && late(n) { return TimedOut; }
      }
      return NoNonce;
    }
  }

  /** Comparing with the shifted target is that. */
  lemma WorkExact(host: Host, h: Header, difficulty: Difficulty)
    ensures MeetsTarget(host, h, difficulty) <==> HasWork(host, h, difficulty)
  {
    TargetMeans(host.HeaderHash(h), difficulty);
    hide Pow2;
  }

  lemma {:induction false} Pow2Add(i: nat, j: nat)
    ensures Pow2(i + j) == Pow2(i) * Pow2(j)
  {
    if i == 0 {
    } else {
      Pow2Add(i - 1, j);
      assert Pow2(i + j) == 2 * (Pow2(i - 1) * Pow2(j));
    }
  }

  lemma {:induction false} BytesAsBits(k: nat)
    ensures Pow2(8 * k) == Pow256(k)
  {
    if k == 0 {
    } else {
      BytesAsBits(k - 1);
      Pow2Add(8, 8 * (k - 1));
    }
  }

  lemma TargetMeans(hash: Hash, d: Difficulty)
    ensures hash <= Pow2(256 - d) <==> hash * Pow2(d) <= TWO256
  {
    BytesAsBits(32);
    Pow256Word();
    Pow2Add(256 - d, d);
    MulOrder(Pow2(256 - d), hash, Pow2(d));
  }

  /** A header is held to the difficulty it claims, whatever target the engine has; one that claims
      none always passes. */
  lemma DifficultyIsClaimed(host: Host, h: Header, target: Difficulty, target': Difficulty)
    ensures EngineAccepts(host, PoW(target), h) == EngineAccepts(host, PoW(target'), h)
    ensures h.difficulty == 0 ==> EngineAccepts(host, PoW(target), h)
  {
    var d := h.difficulty;
    TargetMeans(host.HeaderHash(h), d);
    assert d == 0 ==> Pow2(d) == 1;
    hide Pow2;
  }

  // ---- blocks a wallet can always make ---------------------------------------------------------

  function SignedTx(wallet: Wallet, code: seq<Byte>, to: Address, value: U64, limit: U64): Transaction {
    Transaction(code, to, value, 0, limit, 0, wallet.publicKey, Some(wallet.sign(code)))
  }

  /** The next block on `prev`, claiming no difficulty. */
  function SignedBlock(host: Host, wallet: Wallet, prev: Header, txs: seq<Transaction>): Block {
    var h := NextHeader(host, prev, txs, 0);
    Block(h, txs, [], wallet.publicKey, Some(wallet.sign(host.headerBytes(h))))
  }

  /** Under every engine, an honest wallet's block of verified transactions is valid. */
  lemma SignedBlockValidates(host: Host, l: Ledger, wallet: Wallet, txs: seq<Transaction>)
    requires Stored(l) && |l.headers| < TWO32
    requires Honest(host, wallet)
    requires forall tx <- txs :: SignedBySender(host, tx)
    ensures Validate(host, l, SignedBlock(host, wallet, l.headers[|l.headers| - 1], txs)).None?
  {
    hide Validate, MeetsTarget, EngineAccepts;
    var b := SignedBlock(host, wallet, l.headers[|l.headers| - 1], txs);
    if l.engine.PoW? {
      ClaimingNothing(host, b.header, l.engine);
    }
    ProducedBlockValidates(host, l, b, 0, wallet);
  }

  lemma ClaimingNothing(host: Host, h: Header, engine: Engine)
    requires h.difficulty == 0 && engine.PoW?
    ensures MeetsTarget(host, h, h.difficulty)
  {
    hide Pow2;
    DifficultyIsClaimed(host, h, engine.target, engine.target);
  }

  /** A block built on the tip from verified transactions, sealed for its own difficulty and signed,
      passes every check of the chain it was built on. */
  lemma ProducedBlockValidates(host: Host, l: Ledger, b: Block, timestamp: int, wallet: Wallet)
    requires Stored(l) && |l.headers| < TWO32
    requires Honest(host, wallet)
    requires forall tx <- b.transactions :: SignedBySender(host, tx)
    requires var base := NextHeader(host, l.headers[|l.headers| - 1], b.transactions, timestamp);
             b.header == base.(difficulty := b.header.difficulty, coinbase := b.header.coinbase,
                               nonce := b.header.nonce)
    requires l.engine.PoW? ==> MeetsTarget(host, b.header, b.header.difficulty)
    requires b.evidence == [] && b.validator == wallet.publicKey
    requires b.signature == Some(wallet.sign(host.headerBytes(b.header)))
    ensures Validate(host, l, b).None?
  {
    ValidateExact(host, l, b);
  }
}
