/** The chain and its store in their own form, proved against the ledger's transition. */
module Blockchain {
  import opened Basics
  import opened Types
  import opened Accounts
  import opened Machine
  import opened Spec = Ledger
  import opened LedgerRuns
  import opened WorldObjects
  import opened Evm
  import opened Mining
  import opened Returning

  class MemoryStore {
    const host: Host
    var blocks: map<U32, Block>
    var blockByHash: map<Hash, Block>
    var txByHash: map<Hash, Transaction>

    ghost function View(): Store
      reads this
    {
      Store(blocks, blockByHash, txByHash)
    }

    constructor (host: Host)
      ensures this.host == host && View() == EMPTY_STORE
    {
      this.host := host;
      blocks, blockByHash, txByHash := map[], map[], map[];
    }

    method Put(b: Block)
      modifies this
      ensures View() == PutBlock(host, old(View()), b)
    {
      blocks := blocks[b.header.height := b];
      blockByHash := blockByHash[host.HeaderHash(b.header) := b];
      var i := 0;
      while i < |b.transactions|
        invariant 0 <= i <= |b.transactions|
        invariant blocks == old(blocks)[b.header.height := b]
        invariant blockByHash == old(blockByHash)[host.HeaderHash(b.header) := b]
        invariant IndexTxs(host, txByHash, b.transactions[i..])
               == IndexTxs(host, old(txByHash), b.transactions)
      {
        var tx := b.transactions[i];
        assert b.transactions[i..][1..] == b.transactions[i + 1..];
        txByHash := txByHash[host.TxHash(tx) := tx];
        i := i + 1;
      }
      assert b.transactions[i..] == [];
    }

    method Get(height: U32) returns (b: Option<Block>)
      ensures b == Find(View().blocks, height)
    {
      b := if height in blocks then Some(blocks[height]) else None;
    }

    method GetByHash(h: Hash) returns (b: Option<Block>)
      ensures b == Find(View().byHash, h)
    {
      b := if h in blockByHash then Some(blockByHash[h]) else None;
    }

    method GetTxByHash(h: Hash) returns (tx: Option<Transaction>)
      ensures tx == Find(View().txByHash, h)
    {
      tx := if h in txByHash then Some(txByHash[h]) else None;
    }
  }

  class Blockchain {
    const host: Host
    const store: MemoryStore
    const state: WorldState
    var headers: seq<Header>
    var totalDifficulty: nat
    var engine: Engine

    ghost predicate Valid()
      reads this, state, state.records
    {
      state.Valid() && store.host == host
    }

    ghost function View(): Spec.Ledger
      requires Valid()
      reads this, store, state, state.records, state.slices
    {
      Ledger(headers, state.View(), store.View(), totalDifficulty, engine)
    }

    /** Opens the store: loads its headers, or adds genesis if it is empty. Some height must be free:
        on a full store the loading loop never ends (`LoadEndsExact`). */
    constructor (host: Host, genesis: Block, store: MemoryStore)
      requires store.host == host && FreeFrom(store.View(), 0)
      modifies store
      ensures this.host == host && this.store == store && fresh(state) && fresh(state.records)
      ensures Valid() && View() == OpenChain(host, genesis, old(store.View()))
    {
      this.host, this.store := host, store;
      state := new WorldState();
      headers, totalDifficulty, engine := [], 0, NoEngine;
      new;
      ghost var st := store.View();
      var first := store.Get(0);
      if first.None? {
        AddBlockWithoutValidation(genesis);
      } else {
        LoadHeaders();
      }
    }

    method LoadHeaders()
      requires Valid() && headers == [] && FreeFrom(store.View(), 0)
      modifies this`headers
      ensures Valid() && headers == LoadFrom(store.View(), 0)
    {
      hide WorldState.View, WorldState.Valid, LoadFrom, FreeFrom;
      var i: U32 := 0;
      while true
        invariant FreeFrom(store.View(), i)
        invariant headers + LoadFrom(store.View(), i) == LoadFrom(store.View(), 0)
        decreases TWO32 - i
      {
        LoadTurn(store.View(), i);
        var b := store.Get(i);
        if b.None? { break; }
        headers := headers + [b.value.header];
        i := i + 1;
      }
    }

    method AddBlockWithoutValidation(b: Block)
      requires Valid()
      modifies this, store
      ensures Valid() && View() == Append(host, old(View()), b)
    {
      hide WorldState.View, WorldState.Valid, PutBlock;
      headers := headers + [b.header];
      if engine.PoW? {
        totalDifficulty := totalDifficulty + Weight(b.header);
      }
      store.Put(b);
    }

    method ValidateBlock(b: Block) returns (error: Option<ChainError>)
      requires Valid()
      ensures error == Validate(host, View(), b)
    {
      hide WorldState.View, WorldState.Valid;
      var height: U32 := (|headers| - 1) % TWO32;
      if b.header.height <= height { return Some(AlreadyContains); }
      if b.header.height != (height + 1) % TWO32 { return Some(TooHigh); }
      var prev: U32 := (b.header.height - 1) % TWO32;
      if prev >= |headers| % TWO32 { return Some(NoSuchHeader); }
      if host.HeaderHash(headers[prev]) != b.header.prevBlockHash { return Some(BadPrevHash); }
      if engine.PoW? && !MeetsTarget(host, b.header, b.header.difficulty) { return Some(BadProof); }
      var ok := VerifyBlock(host, b);
      if !ok { return Some(Unverified); }
      return None;
    }

    method GetHeader(height: U32) returns (h: Option<Header>)
      requires Valid() && Stored(View())
      ensures h == if height < |headers| then Some(headers[height]) else None
    {
      hide WorldState.View, WorldState.Valid;
      if height > (|headers| - 1) % TWO32 { return None; }
      return Some(headers[height]);
    }

    /** On a chain some run built, the height index is the chain itself. */
    method GetBlock(height: U32) returns (b: Option<Block>)
      requires Valid() && Stored(View())
      ensures b == if height < |headers| then Some(Chain(View())[height]) else None
    {
      hide WorldState.View, WorldState.Valid;
      b := store.Get(height);
    }

    /** And the hash indexes answer as a scan from the tip would. */
    method GetBlockByHash(h: Hash) returns (b: Option<Block>)
      requires Valid() && Spec.Valid(host, View())
      ensures b == LastBlock(host, Chain(View()), h)
    {
      hide WorldState.View, WorldState.Valid, LastBlock, LastTx, AllTxs, Linked, Verified;
      b := store.GetByHash(h);
    }

    method GetTxByHash(h: Hash) returns (tx: Option<Transaction>)
      requires Valid() && Spec.Valid(host, View())
      ensures tx == LastTx(host, AllTxs(Chain(View())), h)
    {
      hide WorldState.View, WorldState.Valid, LastBlock, LastTx, AllTxs, Linked, Verified;
      tx := store.GetTxByHash(h);
    }

    /** Contract, transfer, nonce, on the live state, the contract watched for `turns` turns. */
    method ExecuteTransaction(tx: Transaction, turns: nat) returns (v: Verdict)
      requires Valid()
      modifies state, state.records
      ensures Valid() && Executed(state.View(), v) == ExecuteTxFor(host, old(state.View()), tx, turns)
      ensures !v.Hung? ==> Executed(state.View(), v) == ExecuteTx(host, old(state.View()), tx)
      ensures Metered(tx) && turns > tx.gasLimit ==> !v.Hung?
      ensures fresh(state.records - old(state.records)) && fresh(state.slices - old(state.slices))
    {
      hide WorldState.View, WorldState.Valid, RunFor, ExecuteTx;
      TxWatched(host, state.View(), tx, turns);
      if |tx.data| > 0 {
        var vm := new Evm(CallOf(host, tx), state);
        var outcome := vm.Run(turns);
        match outcome {
          case None => return Hung;
          case Some(Panicked) => return Crashed;
          case Some(Failed(e)) => return Rejected(VmFailed(e));
          case Some(Returned(_)) =>
        }
      }
      v := SettleTransaction(tx);
    }

    method SettleTransaction(tx: Transaction) returns (v: Verdict)
      requires Valid()
      modifies state, state.records
      ensures Valid() && Executed(state.View(), v) == Settle(host, old(state.View()), tx)
      ensures fresh(state.records - old(state.records)) && state.slices == old(state.slices)
    {
      hide WorldState.View, WorldState.Valid, Accounts.Transfer, Accounts.IncrementNonce;
      if tx.value > 0 {
        var error := state.Transfer(host.Sender(tx), tx.to, tx.value);
        if error.Some? { return Rejected(TransferFailed(error.value)); }
      }
      if tx.signature.Some? {
        state.IncrementNonce(host.Sender(tx));
      }
      return Accepted;
    }

    /** A rejected block's completed transactions are not undone. Once it has returned, the call has
        made the ledger's transition. */
    method AddBlock(b: Block, turns: nat) returns (v: Verdict)
      requires Valid()
      modifies this, store, state, state.records
      ensures Valid() && Result(View(), v) == AddBlockFor(host, old(View()), b, turns)
      ensures !v.Hung? ==> Result(View(), v) == Spec.AddBlock(host, old(View()), b)
      ensures BoundedGas(b, turns) ==> !v.Hung?
      ensures fresh(state.records - old(state.records)) && fresh(state.slices - old(state.slices))
    {
      hide WorldState.View, WorldState.Valid, Validate, ExecuteTxFor, Append, Accounts.AddBalance;
      hide BoundedGas, Spec.AddBlock;
      ghost var l := View();
      AddWatched(host, l, b, turns);
      var error := ValidateBlock(b);
      if error.Some? { return Rejected(Invalid(error.value)); }
      ghost var all := ExecuteTxsFor(host, l.world, b.transactions, turns);
      var i := 0;
      while i < |b.transactions|
        invariant 0 <= i <= |b.transactions| && Valid()
        invariant View() == l.(world := state.View())
        invariant ExecuteTxsFor(host, state.View(), b.transactions[i..], turns) == all
        invariant fresh(state.records - old(state.records)) && fresh(state.slices - old(state.slices))
      {
        assert b.transactions[i..][1..] == b.transactions[i + 1..];
        v := ExecuteTransaction(b.transactions[i], turns);
        if v != Accepted { return; }
        i := i + 1;
      }
      assert b.transactions[i..] == [];
      state.AddBalance(b.header.coinbase, REWARD);
      AddBlockWithoutValidation(b);
      return Accepted;
    }
  }

  lemma LoadTurn(st: Store, i: U32)
    requires FreeFrom(st, i)
    ensures i !in st.blocks ==> LoadFrom(st, i) == []
    ensures i in st.blocks ==>
              && i + 1 < TWO32 && FreeFrom(st, i + 1)
              && LoadFrom(st, i) == [st.blocks[i].header] + LoadFrom(st, i + 1)
  {}

  lemma TxWatched(host: Host, w: World, tx: Transaction, turns: nat)
    ensures var r := ExecuteTxFor(host, w, tx, turns);
            && (!r.verdict.Hung? ==> r == ExecuteTx(host, w, tx))
            && (Metered(tx) && turns > tx.gasLimit ==> !r.verdict.Hung?)
  {
    hide ExecuteTx, ExecuteTxFor;
    if !ExecuteTxFor(host, w, tx, turns).verdict.Hung? {
      WatchedTx(host, w, tx, turns, turns);
    } else if Metered(tx) && turns > tx.gasLimit {
      MeteredTx(host, w, tx, turns);
    }
  }

  lemma AddWatched(host: Host, l: Spec.Ledger, b: Block, turns: nat)
    ensures var r := AddBlockFor(host, l, b, turns);
            && (!r.verdict.Hung? ==> r == Spec.AddBlock(host, l, b))
            && (BoundedGas(b, turns) ==> !r.verdict.Hung?)
  {
    hide Spec.AddBlock, AddBlockFor, BoundedGas;
    if !AddBlockFor(host, l, b, turns).verdict.Hung? {
      WatchedAdd(host, l, b, turns, turns);
    } else if BoundedGas(b, turns) {
      MeteredReturns(host, l, b, turns);
    }
  }
}
