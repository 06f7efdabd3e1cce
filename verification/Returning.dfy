/** When calls that run contract code return, and when they crash. A call can be watched for any number
    of turns of each contract run; what it shows once it has returned is the ledger's transition. */
module Returning {
  import opened Basics
  import opened Types
  import opened Accounts
  import opened Machine
  import opened MachineRuns
  import opened Ledger
  import opened Mining
  import opened Network

  // ---- watching converges to the transition ----------------------------------------

  lemma SettleReturns(host: Host, w: World, tx: Transaction)
    ensures Settle(host, w, tx).verdict.Accepted? || Settle(host, w, tx).verdict.Rejected?
  {}

  /** A transaction watched until it returned did what the transaction does, and longer watching
      shows the same. */
  lemma WatchedTx(host: Host, w: World, tx: Transaction, turns: nat, more: nat)
    requires turns <= more
    requires !ExecuteTxFor(host, w, tx, turns).verdict.Hung?
    ensures ExecuteTx(host, w, tx) == ExecuteTxFor(host, w, tx, turns)
    ensures ExecuteTxFor(host, w, tx, more) == ExecuteTxFor(host, w, tx, turns)
  {
    hide Run, RunFor, Settle;
    if |tx.data| > 0 {
      RunIs(CallOf(host, tx), Start(w), turns);
      RunForMonotone(CallOf(host, tx), Start(w), turns, more);
    }
  }

  lemma {:induction false} WatchedTxs(host: Host, w: World, txs: seq<Transaction>, turns: nat, more: nat)
    requires turns <= more
    requires !ExecuteTxsFor(host, w, txs, turns).verdict.Hung?
    ensures ExecuteTxs(host, w, txs) == ExecuteTxsFor(host, w, txs, turns)
    ensures ExecuteTxsFor(host, w, txs, more) == ExecuteTxsFor(host, w, txs, turns)
    decreases |txs|
  {
    hide ExecuteTx, ExecuteTxFor;
    if txs == [] {
    } else {
      WatchedTx(host, w, txs[0], turns, more);
      var r := ExecuteTxFor(host, w, txs[0], turns);
      if r.verdict.Accepted? {
        WatchedTxs(host, r.w, txs[1..], turns, more);
      }
    }
  }

  lemma WatchedAdd(host: Host, l: Ledger, b: Block, turns: nat, more: nat)
    requires turns <= more
    requires !AddBlockFor(host, l, b, turns).verdict.Hung?
    ensures AddBlock(host, l, b) == AddBlockFor(host, l, b, turns)
    ensures AddBlockFor(host, l, b, more) == AddBlockFor(host, l, b, turns)
  {
    hide Validate, ExecuteTxs, ExecuteTxsFor, Append;
    if Validate(host, l, b).None? {
      WatchedTxs(host, l.world, b.transactions, turns, more);
    }
  }

  lemma {:induction false} WatchedAll(host: Host, l: Ledger, bs: seq<Block>, turns: nat, more: nat)
    requires turns <= more
    requires !AddAllFor(host, l, bs, turns).verdict.Hung?
    ensures AddAll(host, l, bs) == AddAllFor(host, l, bs, turns)
    ensures AddAllFor(host, l, bs, more) == AddAllFor(host, l, bs, turns)
    decreases |bs|
  {
    hide AddBlock, AddBlockFor;
    if bs == [] {
    } else {
      WatchedAdd(host, l, bs[0], turns, more);
      var r := AddBlockFor(host, l, bs[0], turns);
      if r.verdict.Accepted? {
        WatchedAll(host, r.l, bs[1..], turns, more);
      }
    }
  }

  /** Enough turns to see a call that returns return. */
  lemma ReturnedTx(host: Host, w: World, tx: Transaction) returns (turns: nat)
    requires !ExecuteTx(host, w, tx).verdict.Hung?
    ensures !ExecuteTxFor(host, w, tx, turns).verdict.Hung?
  {
    turns := 0;
    if |tx.data| > 0 {
      var call := CallOf(host, tx);
      turns :| RunFor(call, Start(w), turns).Halted? && Run(call, Start(w)) == RunFor(call, Start(w), turns);
    }
  }

  lemma {:induction false} ReturnedTxs(host: Host, w: World, txs: seq<Transaction>) returns (turns: nat)
    requires !ExecuteTxs(host, w, txs).verdict.Hung?
    ensures !ExecuteTxsFor(host, w, txs, turns).verdict.Hung?
    decreases |txs|
  {
    hide ExecuteTx, ExecuteTxFor;
    turns := 0;
    if txs == [] {
    } else {
      var first := ReturnedTx(host, w, txs[0]);
      WatchedTx(host, w, txs[0], first, first);
      turns := first;
      var r := ExecuteTx(host, w, txs[0]);
      if r.verdict.Accepted? {
        var rest := ReturnedTxs(host, r.w, txs[1..]);
        turns := if rest > first then rest else first;
        WatchedTx(host, w, txs[0], first, turns);
        WatchedTxs(host, r.w, txs[1..], rest, turns);
      }
    }
  }

  /** A call hangs exactly when no watching, however long, sees it return. */
  lemma HungExact(host: Host, l: Ledger, b: Block)
    ensures AddBlock(host, l, b).verdict.Hung?
            <==> forall turns: nat :: AddBlockFor(host, l, b, turns).verdict.Hung?
  {
    hide Validate, ExecuteTxs, ExecuteTxsFor, Append;
    if AddBlock(host, l, b).verdict.Hung? {
      forall turns: nat ensures AddBlockFor(host, l, b, turns).verdict.Hung? {
        if !AddBlockFor(host, l, b, turns).verdict.Hung? {
          WatchedAdd(host, l, b, turns, turns);
        }
      }
    } else {
      var turns: nat := 0;
      if Validate(host, l, b).None? {
        turns := ReturnedTxs(host, l.world, b.transactions);
      }
      assert !AddBlockFor(host, l, b, turns).verdict.Hung?;
    }
  }

  // ---- a gas limit a caller can check -----------------------------------------------------

  /** The transaction has no code, or its gas limit is one that bounds every run. */
  predicate Metered(tx: Transaction) {
    |tx.data| > 0 ==> tx.gasLimit < TWO64 - 1
  }

  /** All of a block's code is metered, and `turns` turns are enough for each run of it. */
  predicate BoundedGas(b: Block, turns: nat) {
    forall tx <- b.transactions :: Metered(tx) && turns > tx.gasLimit
  }

  lemma MeteredTx(host: Host, w: World, tx: Transaction, turns: nat)
    requires Metered(tx) && turns > tx.gasLimit
    ensures !ExecuteTxFor(host, w, tx, turns).verdict.Hung?
  {
    hide RunFor, Settle;
    if |tx.data| > 0 {
      var call, s := CallOf(host, tx), Start(w);
      RunHalts(call, w);
      RunForMonotone(call, s, tx.gasLimit + 1, turns);
      SettleReturns(host, RunFor(call, s, turns).s.world, tx);
    } else {
      SettleReturns(host, w, tx);
    }
  }

  lemma {:induction false} MeteredTxs(host: Host, w: World, txs: seq<Transaction>, turns: nat)
    requires forall tx <- txs :: Metered(tx) && turns > tx.gasLimit
    ensures !ExecuteTxsFor(host, w, txs, turns).verdict.Hung?
    decreases |txs|
  {
    hide ExecuteTxFor, Metered;
    if txs == [] {
    } else {
      MeteredTx(host, w, txs[0], turns);
      MeteredTxs(host, ExecuteTxFor(host, w, txs[0], turns).w, txs[1..], turns);
    }
  }

  /** A block of metered transactions returns, whatever the state: every run of its contracts ends
      within one turn more than its gas limit. */
  lemma MeteredReturns(host: Host, l: Ledger, b: Block, turns: nat)
    requires BoundedGas(b, turns)
    ensures !AddBlockFor(host, l, b, turns).verdict.Hung?
    ensures !AddBlock(host, l, b).verdict.Hung?
  {
    hide Validate, ExecuteTxsFor, ExecuteTxs, Append, Metered;
    MeteredTxs(host, l.world, b.transactions, turns);
    WatchedAdd(host, l, b, turns, turns);
  }

  lemma {:induction false} MeteredAllReturn(host: Host, l: Ledger, bs: seq<Block>, turns: nat)
    requires forall b <- bs :: BoundedGas(b, turns)
    ensures !AddAllFor(host, l, bs, turns).verdict.Hung?
    decreases |bs|
  {
    hide AddBlockFor, BoundedGas;
    if bs == [] {
    } else {
      MeteredReturns(host, l, bs[0], turns);
      MeteredAllReturn(host, AddBlockFor(host, l, bs[0], turns).l, bs[1..], turns);
    }
  }

  // ---- and exactly that limit ------------------------------------------------------------------

  lemma SignedVerifies(host: Host, wallet: Wallet, code: seq<Byte>, to: Address, value: U64, limit: U64)
    requires Honest(host, wallet)
    ensures SignedBySender(host, SignedTx(wallet, code, to, value, limit))
  {}

  lemma LoopHangs(host: Host, w: World, tx: Transaction)
    requires tx.data == LOOP && tx.gasLimit == TWO64 - 1
    ensures ExecuteTx(host, w, tx).verdict.Hung?
  {
    var call := CallOf(host, tx);
    forall n: nat ensures RunFor(call, Start(w), n).Running? {
      LoopForever(call, Start(w), n);
    }
  }

  /** Every verified transaction with a gas limit returns, exactly when the limit is below 2^64 - 1. */
  lemma TxReturnsExact(host: Host, wallet: Wallet, w: World, limit: U64)
    requires Honest(host, wallet)
    ensures (forall tx :: SignedBySender(host, tx) && tx.gasLimit == limit ==>
               !ExecuteTx(host, w, tx).verdict.Hung?)
            <==> limit < TWO64 - 1
  {
    hide ExecuteTx, ExecuteTxFor, Honest;
    if limit < TWO64 - 1 {
      forall tx | SignedBySender(host, tx) && tx.gasLimit == limit
        ensures !ExecuteTx(host, w, tx).verdict.Hung?
      {
        MeteredTx(host, w, tx, TWO64);
        WatchedTx(host, w, tx, TWO64, TWO64);
      }
    } else {
      var tx := SignedTx(wallet, LOOP, Zeros(20), 0, limit);
      SignedVerifies(host, wallet, LOOP, Zeros(20), 0, limit);
      LoopHangs(host, w, tx);
    }
  }

  lemma CrashMeansPanic(host: Host, w: World, tx: Transaction)
    ensures ExecuteTx(host, w, tx).verdict.Crashed?
            <==> |tx.data| > 0 && Panics(Run(CallOf(host, tx), Start(w)))
  {
    hide Run;
  }

  /** The limit pays for no instruction, or for one where a word of memory can be had. */
  predicate Harmless(host: Host, limit: U64) {
    limit == 0 || (limit == 1 && host.allocLimit >= 32)
  }

  /** Code that panics under a limit that is not harmless. */
  function CrashingCode(limit: U64): (code: seq<Byte>)
    ensures code != []
  {
    if limit == 1 then [MLOAD] else CRASH
  }

  lemma HarmlessTx(host: Host, w: World, tx: Transaction)
    requires Harmless(host, tx.gasLimit)
    ensures !ExecuteTx(host, w, tx).verdict.Crashed?
  {
    hide Run, ExecuteTx;
    CrashMeansPanic(host, w, tx);
    OneStepSafe(CallOf(host, tx), w);
  }

  lemma CodeCrashes(host: Host, w: World, tx: Transaction)
    requires tx.data == CrashingCode(tx.gasLimit) && !Harmless(host, tx.gasLimit)
    ensures ExecuteTx(host, w, tx).verdict.Crashed?
  {
    hide Run, ExecuteTx;
    CrashMeansPanic(host, w, tx);
    if tx.gasLimit == 1 {
      LoadPanics(CallOf(host, tx), w);
    } else {
      CrashPanics(CallOf(host, tx), w);
    }
  }

  /** No verified transaction with a gas limit crashes, exactly when the limit is harmless. */
  lemma TxCrashesExact(host: Host, wallet: Wallet, w: World, limit: U64)
    requires Honest(host, wallet)
    ensures (forall tx :: SignedBySender(host, tx) && tx.gasLimit == limit ==>
               !ExecuteTx(host, w, tx).verdict.Crashed?)
            <==> limit == 0 || (limit == 1 && host.allocLimit >= 32)
  {
    hide ExecuteTx, Honest;
    if Harmless(host, limit) {
      forall tx | SignedBySender(host, tx) && tx.gasLimit == limit
        ensures !ExecuteTx(host, w, tx).verdict.Crashed?
      {
        HarmlessTx(host, w, tx);
      }
    } else {
      var code := CrashingCode(limit);
      SignedVerifies(host, wallet, code, Zeros(20), 0, limit);
      CodeCrashes(host, w, SignedTx(wallet, code, Zeros(20), 0, limit));
    }
  }

  // ---- whole blocks -------------------------------------------------------------------------------

  predicate HaveLimits(txs: seq<Transaction>, limits: seq<U64>) {
    |txs| == |limits| && forall i :: 0 <= i < |txs| ==> txs[i].gasLimit == limits[i]
  }

  /** Signed transactions under `limits` that do nothing but count nonces, except for `code` at `at`. */
  function CodeAt(wallet: Wallet, limits: seq<U64>, at: nat, code: seq<Byte>): (txs: seq<Transaction>)
    requires at < |limits|
    ensures HaveLimits(txs, limits)
  {
    seq(|limits|, i requires 0 <= i < |limits| =>
      SignedTx(wallet, if i == at then code else [], Zeros(20), 0, limits[i]))
  }

  lemma IdleAccepted(host: Host, w: World, wallet: Wallet, limit: U64)
    ensures ExecuteTx(host, w, SignedTx(wallet, [], Zeros(20), 0, limit)).verdict.Accepted?
  {}

  /** The code is reached, in some state, and if it does not go through that is how the block ends. */
  lemma {:induction false} CodeReached(host: Host, w: World, wallet: Wallet, limits: seq<U64>, at: nat,
                                       code: seq<Byte>) returns (w': World)
    requires at < |limits|
    ensures var r := ExecuteTx(host, w', SignedTx(wallet, code, Zeros(20), 0, limits[at]));
            !r.verdict.Accepted? ==> ExecuteTxs(host, w, CodeAt(wallet, limits, at, code)) == r
    decreases at
  {
    hide ExecuteTx;
    var txs := CodeAt(wallet, limits, at, code);
    if at == 0 {
      w' := w;
    } else {
      IdleAccepted(host, w, wallet, limits[0]);
      assert txs[1..] == CodeAt(wallet, limits[1..], at - 1, code);
      w' := CodeReached(host, ExecuteTx(host, w, txs[0]).w, wallet, limits[1..], at - 1, code);
    }
  }

  /** An honest wallet's block with `code` at `at` is valid, and is executed up to that code. */
  lemma CodeInBlock(host: Host, l: Ledger, wallet: Wallet, limits: seq<U64>, at: nat, code: seq<Byte>)
    returns (b: Block, w': World)
    requires Stored(l) && |l.headers| < TWO32 && Honest(host, wallet)
    requires at < |limits|
    ensures Validate(host, l, b).None? && HaveLimits(b.transactions, limits)
    ensures var v := ExecuteTx(host, w', SignedTx(wallet, code, Zeros(20), 0, limits[at])).verdict;
            !v.Accepted? ==> AddBlock(host, l, b).verdict == v
  {
    var txs := CodeAt(wallet, limits, at, code);
    forall tx <- txs ensures SignedBySender(host, tx) {
      SignedVerifies(host, wallet, tx.data, tx.to, tx.value, tx.gasLimit);
    }
    hide Stored, Honest, Validate, ExecuteTx, ExecuteTxs, CodeAt;
    SignedBlockValidates(host, l, wallet, txs);
    b := SignedBlock(host, wallet, l.headers[|l.headers| - 1], txs);
    w' := CodeReached(host, l.world, wallet, limits, at, code);
  }

  /** On any chain with a height left, adding a block with given gas limits returns whatever the block,
      exactly when every limit is below 2^64 - 1. */
  lemma BlockReturnsExact(host: Host, l: Ledger, wallet: Wallet, limits: seq<U64>)
    requires Stored(l) && |l.headers| < TWO32 && Honest(host, wallet)
    ensures (forall b: Block :: HaveLimits(b.transactions, limits) ==> !AddBlock(host, l, b).verdict.Hung?)
            <==> forall i :: 0 <= i < |limits| ==> limits[i] < TWO64 - 1
  {
    hide AddBlock, Stored, Honest, ExecuteTx;
    if at :| 0 <= at < |limits| && limits[at] == TWO64 - 1 {
      var b, w' := CodeInBlock(host, l, wallet, limits, at, LOOP);
      LoopHangs(host, w', SignedTx(wallet, LOOP, Zeros(20), 0, limits[at]));
    } else {
      forall b: Block | HaveLimits(b.transactions, limits) ensures !AddBlock(host, l, b).verdict.Hung? {
        forall tx <- b.transactions ensures Metered(tx) && TWO64 > tx.gasLimit {
          var i :| 0 <= i < |limits| && b.transactions[i] == tx;
          assert limits[i] < TWO64 - 1;
        }
        MeteredReturns(host, l, b, TWO64);
      }
    }
  }

  lemma {:induction false} HarmlessTxs(host: Host, w: World, txs: seq<Transaction>)
    requires forall tx <- txs :: Harmless(host, tx.gasLimit)
    ensures !ExecuteTxs(host, w, txs).verdict.Crashed?
    decreases |txs|
  {
    hide ExecuteTx, Harmless;
    if txs == [] {
    } else {
      HarmlessTx(host, w, txs[0]);
      HarmlessTxs(host, ExecuteTx(host, w, txs[0]).w, txs[1..]);
    }
  }

  /** And it does not crash the node whatever the block, exactly when every limit is harmless. */
  lemma BlockCrashesExact(host: Host, l: Ledger, wallet: Wallet, limits: seq<U64>)
    requires Stored(l) && |l.headers| < TWO32 && Honest(host, wallet)
    ensures (forall b: Block :: HaveLimits(b.transactions, limits) ==> !AddBlock(host, l, b).verdict.Crashed?)
            <==> forall i :: 0 <= i < |limits| ==> Harmless(host, limits[i])
  {
    hide Stored, Honest, ExecuteTx, ExecuteTxs, Harmless, Validate, Append;
    if at :| 0 <= at < |limits| && !Harmless(host, limits[at]) {
      var code := CrashingCode(limits[at]);
      var b, w' := CodeInBlock(host, l, wallet, limits, at, code);
      CodeCrashes(host, w', SignedTx(wallet, code, Zeros(20), 0, limits[at]));
    } else {
      forall b: Block | HaveLimits(b.transactions, limits) ensures !AddBlock(host, l, b).verdict.Crashed? {
        forall tx <- b.transactions ensures Harmless(host, tx.gasLimit) {
          var i :| 0 <= i < |limits| && b.transactions[i] == tx;
          assert Harmless(host, limits[i]);
        }
        HarmlessTxs(host, l.world, b.transactions);
      }
    }
  }
}
