/** The node's message handlers and its block production, in their own form. */
module Server {
  import opened Basics
  import opened Types
  import opened Spec = Ledger
  import opened LedgerRuns
  import opened Network
  import opened Mining
  import opened Returning
  import opened WorldObjects
  import opened Blockchain
  import opened TxPool

  datatype Production =
    | Produced(block: Block)
    | NotSealed(why: SealResult)
    | NotAdded(block: Block, verdict: Verdict)

  class Server {
    const me: nat
    const peers: nat
    const host: Host
    const chain: Blockchain
    const memPool: TxPool
    const wallet: Wallet
    const consensus: Option<PoWEngine>

    ghost predicate Valid()
      reads this, chain, chain.state, chain.state.records
      reads memPool, memPool.all, memPool.all.txx, memPool.all.txx.buf
      reads memPool.pending, memPool.pending.txx, memPool.pending.txx.buf
    {
      && chain.Valid() && chain.host == host
      && memPool.Valid() && memPool.all.host == host
      && (forall tx <- memPool.View().pending :: SignedBySender(host, tx))
      && chain.engine == (if consensus.None? then NoEngine else PoW(consensus.value.targetDifficulty))
    }

    constructor (me: nat, peers: nat, host: Host, chain: Blockchain, memPool: TxPool, wallet: Wallet,
                 consensus: Option<PoWEngine>)
      requires chain.Valid() && chain.host == host
      requires memPool.Valid() && memPool.all.host == host && memPool.View().pending == []
      modifies chain
      ensures this.host == host && this.chain == chain && this.memPool == memPool && this.wallet == wallet
      ensures Valid()
    {
      this.me, this.peers, this.host, this.chain, this.memPool := me, peers, host, chain, memPool;
      this.wallet, this.consensus := wallet, consensus;
      new;
      chain.engine := if consensus.None? then NoEngine else PoW(consensus.value.targetDifficulty);
    }

    /** Only verified transactions get into the pool. */
    method ProcessTransaction(tx: Transaction, slack: nat, slack': nat)
      requires Valid()
      modifies memPool.all, memPool.all.txx, memPool.all.txx.buf
      modifies memPool.pending, memPool.pending.txx, memPool.pending.txx.buf
      ensures Valid()
      ensures memPool.View()
           == PoolSpec.Apply(host, memPool.maxLength, old(memPool.View()), PoolSpec.Submit(tx))
    {
      hide WorldState.Valid, TxPool.Valid, TxPool.View, PoolSpec.HasHash;
      memPool.Submit(tx, slack, slack');
    }

    /** Draft, prepare, set the coinbase, seal, sign. Under proof of work the block has the configured
        difficulty and the least nonce that meets it; otherwise it claims no difficulty. */
    method BuildBlock(prev: Header, txx: seq<Transaction>, timestamp: int, late: nat -> bool)
      returns (failed: Option<SealResult>, block: Block)
      ensures failed.None? ==> block.transactions == txx && Crafted(host, wallet, prev, txx, timestamp, block)
      ensures failed.None? ==> Worked(host, consensus, block.header)
      ensures failed.Some? ==> consensus.Some? && !failed.value.Sealed?
    {
      hide HasWork, Concat;
      BodyHash(host, txx);
      var draft := new Draft(host, prev, txx, timestamp);
      if consensus.Some? { consensus.value.Prepare(draft); }
      draft.header := draft.header.(coinbase := host.addressOf(wallet.publicKey));
      if consensus.Some? {
        var sealed := consensus.value.Seal(host, draft, late);
        if !sealed.Sealed? { return Some(sealed), draft.ToBlock(); }
      }
      draft.Sign(host, wallet);
      return None, draft.ToBlock();
    }

    /** Builds on the tip and adds; only an added block clears pending. A sealed block passes every
        check of the chain, so it can only be stopped in execution, and it hangs there only if some
        pending contract was given an unbounded gas limit. */
    method CreateNewBlock(timestamp: int, late: nat -> bool, turns: nat)
      returns (r: Production, sent: set<Packet>)
      requires Valid() && Stored(chain.View())
      requires Honest(host, wallet)
      modifies chain, chain.store, chain.state, chain.state.records, memPool.pending, memPool.pending.txx
      ensures Valid()
      ensures r.NotSealed? ==> chain.View() == old(chain.View()) && memPool.View() == old(memPool.View())
      ensures !r.NotSealed? ==>
                && r.block.transactions == old(memPool.View()).pending
                && Crafted(host, wallet, old(chain.headers[|chain.headers| - 1]), r.block.transactions,
                           timestamp, r.block)
                && Worked(host, consensus, r.block.header)
                && (old(|chain.headers|) < TWO32 ==> Validate(host, old(chain.View()), r.block).None?)
                && Followed(host, old(chain.View()), r.block, turns, chain.View(), Reported(r))
      ensures memPool.View() == if r.Produced? then old(memPool.View()).(pending := [])
                                else old(memPool.View())
      ensures sent == if r.Produced? then ToAll(me, peers, r.block) else {}
    {
      hide WorldState.Valid, WorldState.View, TxPool.Valid, Followed, Validate, HasWork, Honest, Crafted;
      ghost var l := chain.View();
      var slice := memPool.Pending();
      var txx := slice.buf[..slice.len];
      var failed, block := BuildBlock(chain.headers[|chain.headers| - 1], txx, timestamp, late);
      if failed.Some? { return NotSealed(failed.value), {}; }
      if |chain.headers| < TWO32 {
        CraftedValidates(host, l, wallet, txx, timestamp, block, consensus);
      }
      r, sent := Publish(block, turns);
    }

    method Publish(block: Block, turns: nat) returns (r: Production, sent: set<Packet>)
      requires Valid()
      modifies chain, chain.store, chain.state, chain.state.records, memPool.pending, memPool.pending.txx
      ensures Valid() && !r.NotSealed? && r.block == block
      ensures Followed(host, old(chain.View()), block, turns, chain.View(), Reported(r))
      ensures memPool.View() == if r.Produced? then old(memPool.View()).(pending := [])
                                else old(memPool.View())
      ensures sent == if r.Produced? then ToAll(me, peers, block) else {}
    {
      hide WorldState.Valid, WorldState.View, TxPool.Valid, AddBlock, AddBlockFor, BoundedGas;
      AddBlockForEngine(host, chain.View(), block, turns);
      var verdict := chain.AddBlock(block, turns);
      if !verdict.Accepted? { return NotAdded(block, verdict), {}; }
      memPool.ClearPending();
      return Produced(block), set j | 0 <= j < peers :: Packet(me, j, NewBlock(block));
    }

    /** A gossiped block: passed on if it is new, answered with a request if it is too far ahead. */
    method ProcessBlock(from: nat, b: Block, turns: nat) returns (v: Verdict, sent: set<Packet>)
      requires Valid()
      modifies chain, chain.store, chain.state, chain.state.records
      ensures Valid() && Followed(host, old(chain.View()), b, turns, chain.View(), v)
      ensures if v.Hung? then sent == {}
              else Reaction(chain.View(), sent, !v.Crashed?)
                   == OnNewBlock(host, me, peers, from, old(chain.View()), b)
    {
      hide WorldState.Valid, WorldState.View, TxPool.Valid, AddBlock, AddBlockFor, BoundedGas;
      AddBlockForEngine(host, chain.View(), b, turns);
      v := chain.AddBlock(b, turns);
      if v.Accepted? { return v, set j | 0 <= j < peers :: Packet(me, j, NewBlock(b)); }
      if SaysTooHigh(v) {
        var next: U32 := ((|chain.headers| - 1) % TWO32 + 1) % TWO32;
        return v, {Packet(me, from, GetBlocks(next, 0))};
      }
      return v, {};
    }

    method ProcessStatus(from: nat, height: U32) returns (sent: set<Packet>)
      requires Valid()
      ensures Reaction(chain.View(), sent, true) == OnStatus(me, from, chain.View(), height)
    {
      hide WorldState.Valid, WorldState.View, TxPool.Valid;
      var own: U32 := (|chain.headers| - 1) % TWO32;
      if height > own { return {Packet(me, from, GetBlocks((own + 1) % TWO32, height))}; }
      return {};
    }

    method ProcessGetStatus(from: nat) returns (sent: set<Packet>)
      requires Valid()
      ensures sent == {Packet(me, from, Status(Height(chain.View())))}
      ensures forall p: Packet :: p.msg == GetStatus && p.dst == me && p.src == from ==>
                Reaction(chain.View(), sent, true) == React(host, peers, chain.View(), p)
    {
      hide WorldState.Valid, WorldState.View, TxPool.Valid;
      return {Packet(me, from, Status((|chain.headers| - 1) % TWO32))};
    }

    /** The answering loop, watched for `turns` turns (`AnswerExact` says when it ends). */
    method ProcessGetBlocks(from: nat, first: U32, to: U32, turns: nat)
      returns (returned: bool, sent: set<Packet>)
      requires Valid()
      ensures returned
          <==> !CollectFor(chain.View().store, first, LastWanted(chain.View(), to), turns).Collecting?
      ensures if returned
              then Reaction(chain.View(), sent, true) == OnGetBlocks(me, from, chain.View(), first, to)
              else sent == {}
    {
      hide WorldState.Valid, WorldState.View, TxPool.Valid, Answer;
      var own: U32 := (|chain.headers| - 1) % TWO32;
      var last: U32 := if to == 0 || to > own then own else to;
      ghost var st := chain.store.View();
      ghost var all := CollectFor(st, first, last, turns);
      AnswerWhenEnded(chain.View(), first, to, turns);
      var blocks: seq<Block> := [];
      var i: U32 := first;
      var left := turns;
      PrependNothing(all);
      while left > 0 && i <= last
        invariant st == chain.store.View()
        invariant all == Prepend(blocks, CollectFor(st, i, last, left))
      {
        var b := chain.store.Get(i);
        if b.None? { return true, {}; }
        PrependOne(blocks, b.value, CollectFor(st, (i + 1) % TWO32, last, left - 1));
        blocks := blocks + [b.value];
        i := (i + 1) % TWO32;
        left := left - 1;
      }
      if left == 0 { return false, {}; }
      assert blocks + [] == blocks;
      return true, {Packet(me, from, Blocks(blocks))};
    }

    /** A batch is added in order until a block is not accepted. */
    method ProcessBlocks(blocks: seq<Block>, turns: nat) returns (v: Verdict)
      requires Valid()
      modifies chain, chain.store, chain.state, chain.state.records
      ensures Valid()
      ensures Result(chain.View(), v) == AddAllFor(host, old(chain.View()), blocks, turns)
      ensures !v.Hung? ==> Result(chain.View(), v) == AddAll(host, old(chain.View()), blocks)
      ensures (forall b <- blocks :: BoundedGas(b, turns)) ==> !v.Hung?
    {
      hide WorldState.Valid, WorldState.View, TxPool.Valid, TxPool.View;
      hide AddBlockFor, AddBlock, AddAll, BoundedGas;
      ghost var all := AddAllFor(host, chain.View(), blocks, turns);
      AllWatched(host, chain.View(), blocks, turns);
      var i := 0;
      while i < |blocks|
        invariant 0 <= i <= |blocks| && Valid()
        invariant AddAllFor(host, chain.View(), blocks[i..], turns) == all
        invariant fresh(chain.state.records - old(chain.state.records))
      {
        assert blocks[i..][1..] == blocks[i + 1..];
        AddBlockForEngine(host, chain.View(), blocks[i], turns);
        v := chain.AddBlock(blocks[i], turns);
        if !v.Accepted? { return; }
        i := i + 1;
      }
      assert blocks[i..] == [];
      return Accepted;
    }
  }

  /** What adding a block, watched for `turns` turns, has made of the ledger: its transition if the call
      returned, and it returned if all code in the block is metered. */
  ghost predicate Followed(host: Host, l: Spec.Ledger, b: Block, turns: nat, l': Spec.Ledger, v: Verdict) {
    && Result(l', v) == AddBlockFor(host, l, b, turns)
    && (!v.Hung? ==> Result(l', v) == AddBlock(host, l, b))
    && (BoundedGas(b, turns) ==> !v.Hung?)
  }

  /** The block as a gossip message to every peer. */
  function ToAll(me: nat, peers: nat, b: Block): set<Packet> {
    set j | 0 <= j < peers :: Packet(me, j, NewBlock(b))
  }

  function Reported(r: Production): Verdict
    requires !r.NotSealed?
  {
    if r.Produced? then Accepted else r.verdict
  }

  lemma AddBlockForEngine(host: Host, l: Spec.Ledger, b: Block, turns: nat)
    ensures AddBlockFor(host, l, b, turns).l.engine == l.engine
  {
    hide Validate, ExecuteTxsFor;
  }

  lemma AllWatched(host: Host, l: Spec.Ledger, bs: seq<Block>, turns: nat)
    ensures var r := AddAllFor(host, l, bs, turns);
            && (!r.verdict.Hung? ==> r == AddAll(host, l, bs))
            && ((forall b <- bs :: BoundedGas(b, turns)) ==> !r.verdict.Hung?)
  {
    hide AddAll, AddAllFor, BoundedGas;
    if !AddAllFor(host, l, bs, turns).verdict.Hung? {
      WatchedAll(host, l, bs, turns, turns);
    } else if forall b <- bs :: BoundedGas(b, turns) {
      MeteredAllReturn(host, l, bs, turns);
    }
  }

  /** A block on `prev` as block production makes it, up to difficulty and nonce. */
  ghost predicate Crafted(host: Host, wallet: Wallet, prev: Header, txx: seq<Transaction>,
                          timestamp: int, b: Block)
  {
    && b.transactions == txx && b.evidence == []
    && b.validator == wallet.publicKey
    && b.signature == Some(wallet.sign(host.headerBytes(b.header)))
    && b.header.version == 1 && b.header.stateRoot == 0 && b.header.timestamp == timestamp
    && b.header.height == (prev.height + 1) % TWO32
    && b.header.prevBlockHash == host.sha256(host.headerBytes(prev))
    && b.header.dataHash == host.sha256(Concat(TxParts(host, txx)))
    && b.header.coinbase == host.addressOf(wallet.publicKey)
  }

  /** Without an engine nothing is claimed; with one, the configured difficulty is met by this nonce and
      by no smaller one. */
  ghost predicate Worked(host: Host, engine: Option<PoWEngine>, h: Header) {
    match engine
    case None => h.difficulty == 0 && h.nonce == 0
    case Some(pow) =>
      && h.difficulty == pow.targetDifficulty
      && HasWork(host, h, pow.targetDifficulty)
      && forall n: U64 :: n < h.nonce ==> !HasWork(host, h.(nonce := n), pow.targetDifficulty)
  }

  lemma CraftedValidates(host: Host, l: Spec.Ledger, wallet: Wallet, txx: seq<Transaction>,
                         timestamp: int, b: Block, engine: Option<PoWEngine>)
    requires Stored(l) && |l.headers| < TWO32 && Honest(host, wallet)
    requires Crafted(host, wallet, l.headers[|l.headers| - 1], txx, timestamp, b)
    requires Worked(host, engine, b.header) && (l.engine.PoW? ==> engine.Some?)
    requires forall tx <- txx :: SignedBySender(host, tx)
    ensures Validate(host, l, b).None?
  {
    hide HasWork, Validate, MeetsTarget, Concat;
    WorkExact(host, b.header, b.header.difficulty);
    ValidateExact(host, l, b);
    assert Body(host, b) == Concat(TxParts(host, txx)) by { NoHeaders(host); }
  }

  lemma BodyHash(host: Host, txx: seq<Transaction>)
    ensures host.DataHash(txx, []) == host.sha256(Concat(TxParts(host, txx)))
  {
    TxEncodingsAre(host, txx);
    assert host.TxEncodings(txx) + [] == host.TxEncodings(txx);
  }

  lemma NoHeaders(host: Host)
    ensures Concat(HeaderParts(host, [])) == []
  {}

  lemma PrependNothing(c: Collecting)
    ensures Prepend([], c) == c
  {
    if !c.Missing? {
      assert [] + c.blocks == c.blocks;
    }
  }

  lemma PrependOne(blocks: seq<Block>, b: Block, c: Collecting)
    ensures Prepend(blocks, Prepend([b], c)) == Prepend(blocks + [b], c)
  {
    if !c.Missing? {
      assert blocks + ([b] + c.blocks) == blocks + [b] + c.blocks;
    }
  }
}
