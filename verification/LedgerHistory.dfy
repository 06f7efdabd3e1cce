/** Balances, nonces, supply and world state as functions of the chain's history. */
module LedgerHistory {
  import opened Basics
  import opened Types
  import opened Accounts
  import opened Machine
  import opened MachineRuns
  import opened Ledger
  import opened LedgerRuns

  // ---- what transactions move -------------------------------------------------------

  function Received(txs: seq<Transaction>, a: Address): nat {
    if txs == [] then 0
    else (if txs[0].to == a then txs[0].value else 0) + Received(txs[1..], a)
  }

  function Sent(host: Host, txs: seq<Transaction>, a: Address): nat {
    if txs == [] then 0
    else (if host.addressOf(txs[0].from) == a then txs[0].value else 0) + Sent(host, txs[1..], a)
  }

  /** Signed transactions sent by `a`. */
  function Counted(host: Host, txs: seq<Transaction>, a: Address): nat {
    if txs == [] then 0
    else (if host.addressOf(txs[0].from) == a && txs[0].signature.Some? then 1 else 0)
         + Counted(host, txs[1..], a)
  }

  function Mined(headers: seq<Header>, a: Address): nat {
    if headers == [] then 0
    else Mined(headers[..|headers| - 1], a)
         + (if headers[|headers| - 1].coinbase == a then 1 else 0)
  }

  lemma {:induction false} HistoryAppend(host: Host, x: seq<Transaction>, y: seq<Transaction>, a: Address)
    ensures Received(x + y, a) == Received(x, a) + Received(y, a)
    ensures Sent(host, x + y, a) == Sent(host, x, a) + Sent(host, y, a)
    ensures Counted(host, x + y, a) == Counted(host, x, a) + Counted(host, y, a)
    decreases |x|
  {
    if x == [] {
      assert x + y == y;
    } else {
      HistoryAppend(host, x[1..], y, a);
      assert (x + y)[1..] == x[1..] + y;
    }
  }

  /** `w'` is `w` after exactly the payments in `txs`, in unbounded integers: nothing wrapped. */
  ghost predicate Moves(host: Host, w: World, w': World, txs: seq<Transaction>) {
    && Supply(w') == Supply(w)
    && (forall a ::
          && Balance(w', a) == Balance(w, a) + Received(txs, a) - Sent(host, txs, a)
          && Nonce(w', a) == (Nonce(w, a) + Counted(host, txs, a)) % TWO64)
  }

  lemma MovesNothing(host: Host, w: World, w': World)
    requires Supply(w') == Supply(w)
    requires forall a :: Balance(w', a) == Balance(w, a) && Nonce(w', a) == Nonce(w, a)
    ensures Moves(host, w, w', [])
  {}

  lemma MovesTrans(host: Host, w0: World, w1: World, w2: World, x: seq<Transaction>, y: seq<Transaction>)
    requires Moves(host, w0, w1, x) && Moves(host, w1, w2, y)
    ensures Moves(host, w0, w2, x + y)
  {
    hide Supply, Balance, Nonce, Received, Sent, Counted;
    forall a
      ensures Balance(w2, a) == Balance(w0, a) + Received(x + y, a) - Sent(host, x + y, a)
      ensures Nonce(w2, a) == (Nonce(w0, a) + Counted(host, x + y, a)) % TWO64
    {
      HistoryAppend(host, x, y, a);
      ModAdd(Nonce(w0, a) + Counted(host, x, a), Counted(host, y, a));
    }
  }

  lemma SettleMoves(host: Host, w: World, tx: Transaction)
    requires Supply(w) < TWO64
    ensures var r := Settle(host, w, tx);
            if r.verdict.Accepted? then Moves(host, w, r.w, [tx]) else r.w == w
  {
    hide Transfer, Supply;
    var from := host.addressOf(tx.from);
    var r := Settle(host, w, tx);
    var w1 := w;
    if tx.value > 0 && Transfer(w, from, tx.to, tx.value).Moved? {
      TransferMoves(w, from, tx.to, tx.value);
      w1 := Transfer(w, from, tx.to, tx.value).w;
    }
    if r.verdict.Accepted? {
      assert r.w == CountNonce(host, w1, tx);
      IncrementNonceSupply(w1, from);
      OneTx(host, tx);
    }
  }

  lemma OneTx(host: Host, tx: Transaction)
    ensures forall a :: Received([tx], a) == if tx.to == a then tx.value else 0
    ensures forall a :: Sent(host, [tx], a) == if host.addressOf(tx.from) == a then tx.value else 0
    ensures forall a :: Counted(host, [tx], a)
                        == if host.addressOf(tx.from) == a && tx.signature.Some? then 1 else 0
  {}

  /** A transaction that does not go through leaves every balance and nonce alone. */
  lemma ExecuteTxMoves(host: Host, w: World, tx: Transaction)
    requires Supply(w) < TWO64
    ensures var r := ExecuteTx(host, w, tx);
            Moves(host, w, r.w, if r.verdict.Accepted? then [tx] else [])
  {
    hide Supply, Settle, Run, OnlyStorageOf, Balance, Nonce;
    if |tx.data| > 0 {
      var w1 := Run(CallOf(host, tx), Start(w)).s.world;
      RunTouchesStorageOnly(CallOf(host, tx), w);
      OnlyStorageSupply(tx.to, w, w1);
      MovesNothing(host, w, w1);
      SettleMoves(host, w1, tx);
      if Settle(host, w1, tx).verdict.Accepted? {
        MovesTrans(host, w, w1, Settle(host, w1, tx).w, [], [tx]);
        assert [] + [tx] == [tx];
      }
    } else {
      SettleMoves(host, w, tx);
      MovesNothing(host, w, w);
    }
  }

  /** How many of the transactions go through before the first that does not. */
  ghost function Completed(host: Host, w: World, txs: seq<Transaction>): (n: nat)
    ensures n <= |txs|
    decreases |txs|
  {
    if txs == [] || !ExecuteTx(host, w, txs[0]).verdict.Accepted? then 0
    else 1 + Completed(host, ExecuteTx(host, w, txs[0]).w, txs[1..])
  }

  /** Executing a block's transactions moves exactly what those that went through say. */
  lemma {:induction false} ExecuteTxsMoves(host: Host, w: World, txs: seq<Transaction>)
    requires Supply(w) < TWO64
    ensures var r := ExecuteTxs(host, w, txs);
            && Moves(host, w, r.w, txs[..Completed(host, w, txs)])
            && (r.verdict.Accepted? <==> Completed(host, w, txs) == |txs|)
    decreases |txs|
  {
    hide ExecuteTx, Supply, Balance, Nonce;
    if txs == [] {
      MovesNothing(host, w, w);
      assert txs[..0] == [];
    } else {
      ExecuteTxMoves(host, w, txs[0]);
      var r := ExecuteTx(host, w, txs[0]);
      if r.verdict.Accepted? {
        ExecuteTxsMoves(host, r.w, txs[1..]);
        var k := Completed(host, r.w, txs[1..]);
        MovesTrans(host, w, r.w, ExecuteTxs(host, w, txs).w, [txs[0]], txs[1..][..k]);
        assert [txs[0]] + txs[1..][..k] == txs[..k + 1];
      } else {
        assert txs[..0] == [];
      }
    }
  }

  // ---- balances over runs --------------------------------------------------------------------

  /** The transactions one call carries through, also when the block is then rejected. */
  ghost function SettledBy(host: Host, l: Ledger, op: Op): seq<Transaction> {
    if op.Add? && Validate(host, l, op.block).None?
    then op.block.transactions[..Completed(host, l.world, op.block.transactions)]
    else []
  }

  ghost function Settled(host: Host, l: Ledger, ops: seq<Op>): seq<Transaction> {
    if ops == [] then []
    else
      var before := ops[..|ops| - 1];
      Settled(host, l, before)
      + if Up(host, l, before) then SettledBy(host, After(host, l, before), ops[|ops| - 1]) else []
  }

  /** Each balance is five per block mined, plus received, minus sent, as integers; each nonce is the
      number of signed transactions sent, modulo 2^64; and nothing else was ever created. */
  ghost predicate Accounted(host: Host, headers: seq<Header>, w: World, txs: seq<Transaction>) {
    && 1 <= |headers|
    && Supply(w) == 5 * (|headers| - 1)
    && (forall a ::
          && Balance(w, a) + Sent(host, txs, a) == 5 * Mined(headers[1..], a) + Received(txs, a)
          && Nonce(w, a) == Counted(host, txs, a) % TWO64)
  }

  lemma AccountedMoves(host: Host, headers: seq<Header>, w: World, txs: seq<Transaction>, w': World,
                       more: seq<Transaction>)
    requires Accounted(host, headers, w, txs)
    requires Moves(host, w, w', more)
    ensures Accounted(host, headers, w', txs + more)
  {
    hide Supply, Balance, Nonce, Received, Sent, Counted, Mined;
    forall a
      ensures Balance(w', a) + Sent(host, txs + more, a)
              == 5 * Mined(headers[1..], a) + Received(txs + more, a)
      ensures Nonce(w', a) == Counted(host, txs + more, a) % TWO64
    {
      HistoryAppend(host, txs, more, a);
      ModAdd(Counted(host, txs, a), Counted(host, more, a));
    }
  }

  lemma AccountedMint(host: Host, headers: seq<Header>, w: World, txs: seq<Transaction>, h: Header)
    requires Accounted(host, headers, w, txs)
    requires |headers| < TWO32
    ensures Accounted(host, headers + [h], AddBalance(w, h.coinbase, REWARD), txs)
  {
    hide AddBalance, Balance, Nonce, Supply, Received, Sent, Counted, Mined;
    AddBalanceMints(w, h.coinbase, REWARD);
    AddBalanceKeepsNonce(w, h.coinbase, REWARD);
    assert (headers + [h])[1..] == headers[1..] + [h];
    forall a { MinedAppend(headers[1..], h, a); }
  }

  lemma MinedAppend(headers: seq<Header>, h: Header, a: Address)
    ensures Mined(headers + [h], a) == Mined(headers, a) + (if h.coinbase == a then 1 else 0)
  {
    assert (headers + [h])[..|headers|] == headers;
  }

  lemma AddBalanceKeepsNonce(w: World, to: Address, amount: U64)
    ensures forall a :: Nonce(AddBalance(w, to, amount), a) == Nonce(w, a)
  {}

  lemma AccountedSupply(host: Host, headers: seq<Header>, w: World, txs: seq<Transaction>)
    requires Accounted(host, headers, w, txs)
    requires |headers| <= TWO32
    ensures Supply(w) < TWO64
  {}

  lemma AddBlockAccounted(host: Host, l: Ledger, txs: seq<Transaction>, b: Block)
    requires Valid(host, l)
    requires Accounted(host, l.headers, l.world, txs)
    ensures var l' := AddBlock(host, l, b).l;
            Accounted(host, l'.headers, l'.world, txs + SettledBy(host, l, Add(b)))
  {
    hide Validate, Accounted, Completed;
    ValidateExact(host, l, b);
    var done := SettledBy(host, l, Add(b));
    if Validate(host, l, b).None? {
      AccountedSupply(host, l.headers, l.world, txs);
      ExecuteTxsMoves(host, l.world, b.transactions);
      var r := ExecuteTxs(host, l.world, b.transactions);
      AccountedMoves(host, l.headers, l.world, txs, r.w, done);
      if r.verdict.Accepted? {
        AccountedMint(host, l.headers, r.w, txs + done, b.header);
      }
    } else {
      assert txs + done == txs;
    }
  }

  lemma NothingAccounted(host: Host, genesis: Header)
    ensures Accounted(host, [genesis], EMPTY_WORLD, [])
  {
    assert [genesis][1..] == [];
  }

  /** Every run from an empty store, including blocks rejected halfway through execution. */
  lemma {:induction false} RunAccounted(host: Host, genesis: Block, ops: seq<Op>)
    requires genesis.header.height == 0
    ensures var l0 := NewChain(host, genesis);
            var l := After(host, l0, ops);
            Accounted(host, l.headers, l.world, Settled(host, l0, ops))
  {
    hide AddBlock, Accounted, SettledBy, Valid, PutBlock;
    var l0 := NewChain(host, genesis);
    if ops == [] {
      NothingAccounted(host, genesis.header);
      assert l0.headers == [genesis.header];
    } else {
      hide NewChain, CameBack;
      var before := ops[..|ops| - 1];
      RunAccounted(host, genesis, before);
      RunValid(host, genesis, before);
      PlayNext(host, l0, ops);
      hide Play;
      var l := After(host, l0, before);
      assert Settled(host, l0, before) + [] == Settled(host, l0, before);
      match ops[|ops| - 1]
      case Add(b) => AddBlockAccounted(host, l, Settled(host, l0, before), b);
      case SetEngine(e) => SettlesNothing(host, l, Settled(host, l0, before), e);
    }
  }

  lemma SettlesNothing(host: Host, l: Ledger, txs: seq<Transaction>, e: Engine)
    ensures txs + SettledBy(host, l, SetEngine(e)) == txs
  {}

  /** The supply law on its own: five per block above genesis, below 2^64 whatever the run. */
  lemma RunSupply(host: Host, genesis: Block, ops: seq<Op>)
    requires genesis.header.height == 0
    ensures var l := After(host, NewChain(host, genesis), ops);
            && Supply(l.world) == 5 * Height(l)
            && Supply(l.world) < TWO64
  {
    hide Play, NewChain, Settled, Linked, Indexed, Verified, Balance, Nonce;
    RunAccounted(host, genesis, ops);
    RunValid(host, genesis, ops);
  }

  // ---- replay -------------------------------------------------------------------------------------

  /** One block executed from a given state, or `None` if some transaction does not go through. */
  ghost function ExecuteBlock(host: Host, w: World, b: Block): Option<World> {
    var r := ExecuteTxs(host, w, b.transactions);
    if r.verdict.Accepted? then Some(AddBalance(r.w, b.header.coinbase, REWARD)) else None
  }

  /** The state reached from nothing by executing the chain's blocks above genesis in order. */
  ghost function Replay(host: Host, chain: seq<Block>): Option<World> {
    if |chain| <= 1 then Some(EMPTY_WORLD)
    else
      match Replay(host, chain[..|chain| - 1])
      case None => None
      case Some(w) => ExecuteBlock(host, w, chain[|chain| - 1])
  }

  lemma ReplayAppend(host: Host, chain: seq<Block>, b: Block)
    requires chain != []
    ensures Replay(host, chain + [b])
            == match Replay(host, chain)
               case None => None
               case Some(w) => ExecuteBlock(host, w, b)
  {
    assert (chain + [b])[..|chain|] == chain;
  }

  /** The state is a function of the chain. */
  ghost predicate Replayed(host: Host, l: Ledger)
    requires Stored(l)
  {
    Replay(host, Chain(l)) == Some(l.world)
  }

  /** The call added its block, or refused it and left the world state as it was. */
  predicate Traceless(l: Ledger, r: Result) {
    r.verdict.Accepted? || (r.verdict.Rejected? && r.l.world == l.world)
  }

  /** From a replayed state: a call comes back with the state still the replay of the chain exactly when
      it was traceless; and a block that validates is added exactly when the longer chain replays. */
  lemma AddBlockReplayed(host: Host, l: Ledger, b: Block)
    requires Valid(host, l)
    requires Replayed(host, l)
    ensures var r := AddBlock(host, l, b);
            && Stored(r.l)
            && (CameBack(r.verdict) && Replayed(host, r.l) <==> Traceless(l, r))
            && (Validate(host, l, b).None? ==>
                  (r.verdict.Accepted? <==> Replay(host, Chain(l) + [b]).Some?))
  {
    hide Validate, Linked, Indexed, Verified, ExecuteTxs, AddBalance;
    AddBlockValid(host, l, b);
    ReplayAppend(host, Chain(l), b);
  }

  /** Execution never reports a validation error. */
  lemma {:induction false} ExecutionErrors(host: Host, w: World, txs: seq<Transaction>)
    ensures var v := ExecuteTxs(host, w, txs).verdict;
            v.Rejected? ==> !v.error.Invalid?
    decreases |txs|
  {
    hide Run, Transfer;
    if txs == [] {
    } else {
      ExecutionErrors(host, ExecuteTx(host, w, txs[0]).w, txs[1..]);
    }
  }

  // ---- telling beforehand ---------------------------------------------------------------------------

  /** The first transaction is refused and leaves the world as it was. */
  ghost predicate FirstRefused(host: Host, w: World, txs: seq<Transaction>) {
    && txs != []
    && var r := ExecuteTx(host, w, txs[0]);
       r.verdict.Rejected? && r.w == w
  }

  /** On the state before the call: the block does not validate, or all its transactions go through, or
      the very first is refused without a trace. */
  ghost predicate Clean(host: Host, l: Ledger, b: Block) {
    || Validate(host, l, b).Some?
    || Completed(host, l.world, b.transactions) == |b.transactions|
    || FirstRefused(host, l.world, b.transactions)
  }

  /** As many transactions as a slice can hold. */
  predicate Sized(b: Block) { |b.transactions| < TWO63 }

  lemma {:induction false} CountedBound(host: Host, txs: seq<Transaction>, a: Address)
    ensures Counted(host, txs, a) <= |txs|
  {
    if txs == [] {
    } else {
      CountedBound(host, txs[1..], a);
    }
  }

  lemma NonceMoves(n: U64, k: nat)
    requires 0 < k < TWO63
    ensures (n + k) % TWO64 != n
  {}

  /** One completed transaction always shows, in its sender's nonce. */
  lemma CompletedShows(host: Host, w: World, txs: seq<Transaction>)
    requires Supply(w) < TWO64 && |txs| < TWO63
    requires Completed(host, w, txs) > 0 && txs[0].signature.Some?
    ensures ExecuteTxs(host, w, txs).w != w
  {
    hide ExecuteTxs, Completed, Supply, Balance, Nonce, Counted;
    ExecuteTxsMoves(host, w, txs);
    var done, a := txs[..Completed(host, w, txs)], host.addressOf(txs[0].from);
    CountedBound(host, done, a);
    CountedFirst(host, done);
    NonceMoves(Nonce(w, a), Counted(host, done, a));
  }

  lemma CountedFirst(host: Host, txs: seq<Transaction>)
    requires txs != [] && txs[0].signature.Some?
    ensures Counted(host, txs, host.addressOf(txs[0].from)) >= 1
  {}

  lemma StopsAtFirst(host: Host, w: World, txs: seq<Transaction>)
    requires txs != [] && Completed(host, w, txs) == 0
    ensures ExecuteTxs(host, w, txs) == ExecuteTx(host, w, txs[0])
    ensures !ExecuteTx(host, w, txs[0]).verdict.Accepted?
  {
    hide ExecuteTx;
  }

  /** Whether adding a block is traceless can be told before the call. */
  lemma CleanExact(host: Host, l: Ledger, b: Block)
    requires 1 <= |l.headers| <= TWO32
    requires Supply(l.world) < TWO64 && Sized(b)
    ensures Traceless(l, AddBlock(host, l, b)) <==> Clean(host, l, b)
  {
    hide Validate, ExecuteTxs, ExecuteTx, Completed, Supply, Append, Moves;
    ValidateExact(host, l, b);
    var w, txs := l.world, b.transactions;
    if Validate(host, l, b).None? {
      ExecuteTxsMoves(host, w, txs);
      if 0 == Completed(host, w, txs) < |txs| {
        StopsAtFirst(host, w, txs);
      } else if Completed(host, w, txs) < |txs| {
        assert SignedBySender(host, txs[0]);
        CompletedShows(host, w, txs);
        FirstCompleted(host, w, txs);
      }
    }
  }

  lemma FirstCompleted(host: Host, w: World, txs: seq<Transaction>)
    requires Completed(host, w, txs) > 0
    ensures ExecuteTx(host, w, txs[0]).verdict.Accepted?
  {
    hide ExecuteTx;
  }

  // ---- payments ------------------------------------------------------------------------------------

  /** What the sender of the `k`-th payment has when its turn comes covers it, in unbounded integers. */
  predicate Covered(host: Host, w: World, txs: seq<Transaction>, k: nat)
    requires k < |txs|
  {
    var a := host.addressOf(txs[k].from);
    txs[k].value + Sent(host, txs[..k], a) <= Balance(w, a) + Received(txs[..k], a)
  }

  lemma PaymentExact(host: Host, w: World, tx: Transaction)
    requires tx.data == []
    ensures var r := ExecuteTx(host, w, tx);
            var a := host.addressOf(tx.from);
            if tx.value <= Balance(w, a) then r.verdict.Accepted?
            else r == Executed(w, Rejected(TransferFailed(if a in w.accounts then Insufficient else NoSender)))
  {}

  lemma CoveredNext(host: Host, w: World, w': World, txs: seq<Transaction>, k: nat)
    requires 0 < k < |txs|
    requires Moves(host, w, w', [txs[0]])
    ensures Covered(host, w, txs, k) <==> Covered(host, w', txs[1..], k - 1)
  {
    hide Supply, Balance, Nonce;
    var a := host.addressOf(txs[k].from);
    assert txs[..k] == [txs[0]] + txs[1..][..k - 1];
    HistoryAppend(host, [txs[0]], txs[1..][..k - 1], a);
  }

  /** Payments go through up to the first that is not covered. */
  lemma {:induction false} PaymentsExact(host: Host, w: World, txs: seq<Transaction>)
    requires Supply(w) < TWO64
    requires forall tx <- txs :: tx.data == []
    ensures var n := Completed(host, w, txs);
            && (forall k :: 0 <= k < n ==> Covered(host, w, txs, k))
            && (n < |txs| ==> !Covered(host, w, txs, n))
    decreases |txs|
  {
    hide ExecuteTx, Supply, Covered, Moves;
    if txs == [] {
    } else {
      PaymentExact(host, w, txs[0]);
      FirstCovered(host, w, txs);
      var r := ExecuteTx(host, w, txs[0]);
      if r.verdict.Accepted? {
        ExecuteTxMoves(host, w, txs[0]);
        MovesKeepSupply(host, w, r.w, [txs[0]]);
        PaymentsExact(host, r.w, txs[1..]);
        forall k | 0 < k < |txs|
          ensures Covered(host, w, txs, k) <==> Covered(host, r.w, txs[1..], k - 1)
        {
          CoveredNext(host, w, r.w, txs, k);
        }
        var m := Completed(host, r.w, txs[1..]);
        forall k | 0 <= k < m + 1 ensures Covered(host, w, txs, k) {
          if k > 0 {
            assert Covered(host, r.w, txs[1..], k - 1);
          }
        }
      }
    }
  }

  lemma FirstCovered(host: Host, w: World, txs: seq<Transaction>)
    requires txs != []
    ensures Covered(host, w, txs, 0) <==> txs[0].value <= Balance(w, host.addressOf(txs[0].from))
  {
    assert txs[..0] == [];
  }

  lemma MovesKeepSupply(host: Host, w: World, w': World, txs: seq<Transaction>)
    requires Moves(host, w, w', txs)
    ensures Supply(w') == Supply(w)
  {}

  /** A valid block of plain payments is added exactly when each is covered, and it leaves a trace without
      being added exactly when the first is covered and a later one is not. */
  lemma PaymentBlockExact(host: Host, l: Ledger, b: Block)
    requires 1 <= |l.headers| <= TWO32
    requires Supply(l.world) < TWO64 && Sized(b)
    requires Validate(host, l, b).None?
    requires forall tx <- b.transactions :: tx.data == []
    ensures var w, txs, r := l.world, b.transactions, AddBlock(host, l, b);
            && CameBack(r.verdict)
            && (r.verdict.Accepted? <==> forall k :: 0 <= k < |txs| ==> Covered(host, w, txs, k))
            && (Traceless(l, r)
                <==> txs == [] || !Covered(host, w, txs, 0)
                     || forall k :: 0 <= k < |txs| ==> Covered(host, w, txs, k))
  {
    hide Validate, ExecuteTxs, ExecuteTx, Supply, Append, Moves, Covered;
    var w, txs := l.world, b.transactions;
    ExecuteTxsMoves(host, w, txs);
    PaymentsExact(host, w, txs);
    PaymentsComeBack(host, w, txs);
    CleanExact(host, l, b);
    if txs != [] {
      PaymentExact(host, w, txs[0]);
      FirstCovered(host, w, txs);
    }
    var n := Completed(host, w, txs);
    if n < |txs| {
      assert !Covered(host, w, txs, n);
    }
    hide Completed;
  }

  lemma {:induction false} PaymentsComeBack(host: Host, w: World, txs: seq<Transaction>)
    requires forall tx <- txs :: tx.data == []
    ensures CameBack(ExecuteTxs(host, w, txs).verdict)
    decreases |txs|
  {
    hide ExecuteTx;
    if txs == [] {
    } else {
      PaymentExact(host, w, txs[0]);
      PaymentsComeBack(host, ExecuteTx(host, w, txs[0]).w, txs[1..]);
    }
  }

  // ---- replay over runs ---------------------------------------------------------------------------------

  ghost predicate CleanAt(host: Host, l: Ledger, ops: seq<Op>, i: nat)
    requires i < |ops|
  {
    ops[i].Add? ==> Clean(host, After(host, l, ops[..i]), ops[i].block)
  }

  ghost predicate CleanRun(host: Host, l: Ledger, ops: seq<Op>) {
    forall i :: 0 <= i < |ops| ==> CleanAt(host, l, ops, i)
  }

  /** All calls so far came back and the state is the replay of the chain. */
  ghost predicate ReplayedAt(host: Host, l: Ledger, ops: seq<Op>, i: nat)
    requires i <= |ops|
  {
    && Up(host, l, ops[..i])
    && Stored(After(host, l, ops[..i])) && Replayed(host, After(host, l, ops[..i]))
  }

  lemma CleanIsTraceless(host: Host, l: Ledger, b: Block)
    requires Clean(host, l, b) && Supply(l.world) < TWO64
    ensures Traceless(l, AddBlock(host, l, b))
  {
    hide Validate, ExecuteTx, Supply, Append, Moves;
    ExecuteTxsMoves(host, l.world, b.transactions);
  }

  lemma ApplyReplayed(host: Host, l: Ledger, op: Op)
    requires Valid(host, l) && Supply(l.world) < TWO64
    requires Replayed(host, l)
    ensures var r, clean := Apply(host, l, op), op.Add? ==> Clean(host, l, op.block);
            && Stored(r.l)
            && (clean ==> CameBack(r.verdict) && Replayed(host, r.l))
            && (CameBack(r.verdict) && Replayed(host, r.l) && (op.Add? ==> Sized(op.block)) ==> clean)
  {
    hide AddBlock, Linked, Indexed, Verified, Replay, Supply, Clean, Traceless;
    match op
    case Add(b) =>
      AddBlockReplayed(host, l, b);
      if Clean(host, l, b) {
        CleanIsTraceless(host, l, b);
      } else if Sized(b) {
        CleanExact(host, l, b);
      }
    case SetEngine(e) =>
      EngineIrrelevant(host, l, e);
  }

  lemma ReplayedNext(host: Host, genesis: Block, ops: seq<Op>, i: nat)
    requires genesis.header.height == 0 && i < |ops|
    requires ReplayedAt(host, NewChain(host, genesis), ops, i)
    ensures var l0 := NewChain(host, genesis);
            && (CleanAt(host, l0, ops, i) ==> ReplayedAt(host, l0, ops, i + 1))
            && (ReplayedAt(host, l0, ops, i + 1) && (ops[i].Add? ==> Sized(ops[i].block)) ==>
                  CleanAt(host, l0, ops, i))
  {
    hide Apply, NewChain, Valid, Replayed, Clean, Play, CameBack;
    var l0 := NewChain(host, genesis);
    RunValid(host, genesis, ops[..i]);
    RunSupply(host, genesis, ops[..i]);
    assert ops[..i + 1][..i] == ops[..i];
    PlayNext(host, l0, ops[..i + 1]);
    ApplyReplayed(host, After(host, l0, ops[..i]), ops[i]);
  }

  lemma StartsReplayed(host: Host, genesis: Block, ops: seq<Op>)
    requires genesis.header.height == 0
    ensures ReplayedAt(host, NewChain(host, genesis), ops, 0)
  {
    hide NewChain, Replayed;
    NewChainReplayed(host, genesis);
    assert ops[..0] == [];
  }

  lemma {:induction false} RunReplayed(host: Host, genesis: Block, ops: seq<Op>, i: nat)
    requires genesis.header.height == 0 && i <= |ops|
    requires CleanRun(host, NewChain(host, genesis), ops)
    ensures ReplayedAt(host, NewChain(host, genesis), ops, i)
  {
    hide NewChain, CleanAt;
    if i == 0 {
      StartsReplayed(host, genesis, ops);
    } else {
      hide ReplayedAt;
      RunReplayed(host, genesis, ops, i - 1);
      ReplayedNext(host, genesis, ops, i - 1);
    }
  }

  /** The node keeps running and its state is the replay of its chain, at every moment of a run, exactly
      when each block in turn failed validation, went through, or had its first transaction refused
      without a trace, told on the state it met. */
  lemma ReplayedExact(host: Host, genesis: Block, ops: seq<Op>)
    requires genesis.header.height == 0
    requires forall op <- ops :: op.Add? ==> Sized(op.block)
    ensures var l0 := NewChain(host, genesis);
            CleanRun(host, l0, ops)
            <==> forall i :: 0 <= i <= |ops| ==> ReplayedAt(host, l0, ops, i)
  {
    hide NewChain, CleanAt, ReplayedAt;
    var l0 := NewChain(host, genesis);
    if CleanRun(host, l0, ops) {
      forall i | 0 <= i <= |ops| ensures ReplayedAt(host, l0, ops, i) {
        RunReplayed(host, genesis, ops, i);
      }
    } else if forall i :: 0 <= i <= |ops| ==> ReplayedAt(host, l0, ops, i) {
      forall i | 0 <= i < |ops| ensures CleanAt(host, l0, ops, i) {
        ReplayedNext(host, genesis, ops, i);
      }
    }
  }

  lemma NewChainReplayed(host: Host, genesis: Block)
    requires genesis.header.height == 0
    ensures Stored(NewChain(host, genesis)) && Replayed(host, NewChain(host, genesis))
  {
    NewChainValid(host, genesis);
  }

  // ---- history of replayed chains --------------------------------------------------------------------

  function HeadersOf(chain: seq<Block>): (hs: seq<Header>)
    ensures |hs| == |chain|
  {
    seq(|chain|, i requires 0 <= i < |chain| => chain[i].header)
  }

  /** Whatever chain replays, its state accounts for exactly the transactions above genesis. */
  lemma {:induction false} ReplayAccounted(host: Host, chain: seq<Block>)
    requires 1 <= |chain| <= TWO32
    requires Replay(host, chain).Some?
    ensures Accounted(host, HeadersOf(chain), Replay(host, chain).value, AllTxs(chain[1..]))
    decreases |chain|
  {
    hide Accounted, AllTxs, ExecuteTxs;
    var n := |chain| - 1;
    if n == 0 {
      assert HeadersOf(chain) == [chain[0].header];
      assert AllTxs(chain[1..]) == [] by { NoTxs(chain); }
      NothingAccounted(host, chain[0].header);
    } else {
      var front, b := chain[..n], chain[n];
      ReplayAccounted(host, front);
      var w, txs, hs := Replay(host, front).value, AllTxs(front[1..]), HeadersOf(front);
      BlockAccounted(host, hs, w, txs, b);
      assert HeadersOf(chain) == hs + [b.header];
      assert chain[1..] == front[1..] + [b];
      AllTxsAppend(front[1..], b);
    }
  }

  lemma BlockAccounted(host: Host, headers: seq<Header>, w: World, txs: seq<Transaction>, b: Block)
    requires Accounted(host, headers, w, txs) && |headers| < TWO32
    requires ExecuteBlock(host, w, b).Some?
    ensures Accounted(host, headers + [b.header], ExecuteBlock(host, w, b).value, txs + b.transactions)
  {
    hide Accounted, ExecuteTxs, Moves;
    AccountedSupply(host, headers, w, txs);
    ExecuteTxsMoves(host, w, b.transactions);
    assert b.transactions[..|b.transactions|] == b.transactions;
    var w' := ExecuteTxs(host, w, b.transactions).w;
    AccountedMoves(host, headers, w, txs, w', b.transactions);
    AccountedMint(host, headers, w', txs + b.transactions, b.header);
  }

  lemma {:induction false} AllTxsAppend(chain: seq<Block>, b: Block)
    ensures AllTxs(chain + [b]) == AllTxs(chain) + b.transactions
  {
    assert (chain + [b])[..|chain|] == chain;
  }

  lemma NoTxs(chain: seq<Block>)
    requires |chain| == 1
    ensures AllTxs(chain[1..]) == []
  {}

  /** All transactions sent by `a`, signed or not. */
  function SentCount(host: Host, txs: seq<Transaction>, a: Address): nat {
    if txs == [] then 0
    else (if host.addressOf(txs[0].from) == a then 1 else 0) + SentCount(host, txs[1..], a)
  }

  lemma {:induction false} AllSigned(host: Host, txs: seq<Transaction>, a: Address)
    requires forall tx <- txs :: tx.signature.Some?
    ensures Counted(host, txs, a) == SentCount(host, txs, a)
  {
    if txs == [] {
    } else {
      AllSigned(host, txs[1..], a);
    }
  }

  lemma {:induction false} ChainSigned(host: Host, chain: seq<Block>)
    requires forall b <- chain :: Authentic(host, b)
    ensures forall tx <- AllTxs(chain) :: tx.signature.Some?
  {
    if chain == [] {
    } else {
      ChainSigned(host, chain[..|chain| - 1]);
      assert Authentic(host, chain[|chain| - 1]);
    }
  }

  /** On a clean run: the state is the replay of the chain, each balance is five per block mined plus
      received minus sent on the chain, and each nonce is the number of transactions sent on it. */
  lemma CleanRunHistory(host: Host, genesis: Block, ops: seq<Op>, a: Address)
    requires genesis.header.height == 0
    requires CleanRun(host, NewChain(host, genesis), ops)
    ensures var l := After(host, NewChain(host, genesis), ops);
            && Stored(l)
            && Replay(host, Chain(l)) == Some(l.world)
            && var txs := AllTxs(Chain(l)[1..]);
               && Balance(l.world, a) == 5 * Mined(l.headers[1..], a)
                                         + Received(txs, a) - Sent(host, txs, a)
               && Nonce(l.world, a) == SentCount(host, txs, a) % TWO64
  {
    hide Play, NewChain, CleanRun, Replay, AllTxs, Mined, Received, Sent, Counted, SentCount;
    hide Balance, Nonce, Linked, Indexed;
    var l0 := NewChain(host, genesis);
    RunReplayed(host, genesis, ops, |ops|);
    assert ops[..|ops|] == ops;
    RunValid(host, genesis, ops);
    var l := After(host, l0, ops);
    ReplayAccounted(host, Chain(l));
    assert HeadersOf(Chain(l)) == l.headers;
    ChainSigned(host, Chain(l)[1..]);
    AllSigned(host, AllTxs(Chain(l)[1..]), a);
  }
}
