/** What every run of the ledger keeps: linking, heights, store agreement, cumulative difficulty. */
module LedgerRuns {
  import opened Basics
  import opened Types
  import opened Accounts
  import opened Ledger

  // ---- appending -----------------------------------------------------------------

  lemma {:induction false} LastTxAppend(host: Host, a: seq<Transaction>, b: seq<Transaction>, h: Hash)
    ensures LastTx(host, a + b, h)
            == if LastTx(host, b, h).Some? then LastTx(host, b, h) else LastTx(host, a, h)
    decreases |b|
  {
    if b == [] {
      assert a + b == a;
    } else {
      LastTxAppend(host, a, b[..|b| - 1], h);
      assert (a + b)[..|a + b| - 1] == a + b[..|b| - 1];
    }
  }

  /** Indexing transactions one by one makes the map answer with the last of them. */
  lemma {:induction false} IndexTxsFinds(host: Host, m: map<Hash, Transaction>, txs: seq<Transaction>,
                                         h: Hash)
    ensures Find(IndexTxs(host, m, txs), h)
            == if LastTx(host, txs, h).Some? then LastTx(host, txs, h) else Find(m, h)
    decreases |txs|
  {
    if txs == [] {
    } else {
      IndexTxsFinds(host, m[host.TxHash(txs[0]) := txs[0]], txs[1..], h);
      assert txs == [txs[0]] + txs[1..];
      LastTxAppend(host, [txs[0]], txs[1..], h);
      assert LastTx(host, [], h).None?;
    }
  }

  lemma AppendStored(host: Host, l: Ledger, b: Block)
    requires Stored(l) && |l.headers| < TWO32
    requires b.header.height == |l.headers|
    ensures Stored(Append(host, l, b))
    ensures Chain(Append(host, l, b)) == Chain(l) + [b]
  {}

  lemma AppendIndexed(host: Host, l: Ledger, b: Block)
    requires Stored(l) && |l.headers| < TWO32
    requires b.header.height == |l.headers|
    requires Indexed(host, l)
    ensures Stored(Append(host, l, b))
    ensures Indexed(host, Append(host, l, b))
  {
    AppendStored(host, l, b);
    var l', c := Append(host, l, b), Chain(l) + [b];
    assert c[..|c| - 1] == Chain(l);
    assert AllTxs(c) == AllTxs(Chain(l)) + b.transactions;
    forall h: Hash
      ensures Find(l'.store.byHash, h) == LastBlock(host, Chain(l'), h)
      ensures Find(l'.store.txByHash, h) == LastTx(host, AllTxs(Chain(l')), h)
    {
      IndexTxsFinds(host, l.store.txByHash, b.transactions, h);
      LastTxAppend(host, AllTxs(Chain(l)), b.transactions, h);
    }
  }

  lemma AppendValid(host: Host, l: Ledger, b: Block)
    requires Valid(host, l) && |l.headers| < TWO32
    requires b.header.height == |l.headers|
    requires b.header.prevBlockHash == host.sha256(host.headerBytes(l.headers[|l.headers| - 1]))
    requires Authentic(host, b)
    ensures Valid(host, Append(host, l, b))
    ensures Chain(Append(host, l, b)) == Chain(l) + [b]
  {
    hide LastBlock, LastTx, AllTxs, IndexTxs, Authentic, Find;
    AppendStored(host, l, b);
    AppendIndexed(host, l, b);
  }

  // ---- validation ------------------------------------------------------------------

  lemma {:induction false} ConcatFront(part: seq<Byte>, parts: seq<seq<Byte>>)
    ensures Concat([part] + parts) == part + Concat(parts)
    decreases |parts|
  {
    var all := [part] + parts;
    if parts == [] {
      assert all[..0] == [];
    } else {
      ConcatFront(part, parts[..|parts| - 1]);
      assert all[..|all| - 1] == [part] + parts[..|parts| - 1];
    }
  }

  lemma {:induction false} TxEncodingsAre(host: Host, txs: seq<Transaction>)
    ensures host.TxEncodings(txs) == Concat(TxParts(host, txs))
  {
    if txs == [] {
    } else {
      TxEncodingsAre(host, txs[1..]);
      assert TxParts(host, txs) == [host.txBytes(txs[0])] + TxParts(host, txs[1..]);
      ConcatFront(host.txBytes(txs[0]), TxParts(host, txs[1..]));
    }
  }

  lemma {:induction false} HeaderEncodingsAre(host: Host, hs: seq<Header>)
    ensures host.HeaderEncodings(hs) == Concat(HeaderParts(host, hs))
  {
    if hs == [] {
    } else {
      HeaderEncodingsAre(host, hs[1..]);
      assert HeaderParts(host, hs) == [host.headerBytes(hs[0])] + HeaderParts(host, hs[1..]);
      ConcatFront(host.headerBytes(hs[0]), HeaderParts(host, hs[1..]));
    }
  }

  lemma DataHashIs(host: Host, b: Block)
    ensures host.DataHash(b.transactions, b.evidence) == host.sha256(Body(host, b))
  {
    hide Concat;
    TxEncodingsAre(host, b.transactions);
    HeaderEncodingsAre(host, b.evidence);
  }

  lemma TxVerifiesExact(host: Host, tx: Transaction)
    ensures host.TxVerifies(tx) <==> SignedBySender(host, tx)
  {}

  /** Verification of a block accepts exactly the authentic ones. */
  lemma VerifiesExact(host: Host, b: Block)
    ensures host.BlockVerifies(b) <==> Authentic(host, b)
  {
    hide Body;
    DataHashIs(host, b);
    forall tx <- b.transactions ensures host.TxVerifies(tx) <==> SignedBySender(host, tx) {
      TxVerifiesExact(host, tx);
    }
  }

  /** A block passes exactly when it is the next one, links to the tip, satisfies the engine and
      verifies, and there is a next height to have. */
  lemma ValidateExact(host: Host, l: Ledger, b: Block)
    requires 1 <= |l.headers| <= TWO32
    ensures Validate(host, l, b).None?
            <==> && |l.headers| < TWO32
                 && b.header.height == |l.headers|
                 && b.header.prevBlockHash == host.sha256(host.headerBytes(l.headers[|l.headers| - 1]))
                 && EngineAccepts(host, l.engine, b.header)
                 && Authentic(host, b)
  {
    hide Authentic;
    VerifiesExact(host, b);
  }

  /** The reason given is the first of: old, too far ahead, wrong link, no proof of work, not authentic. */
  lemma ValidateReasons(host: Host, l: Ledger, b: Block)
    requires 1 <= |l.headers| < TWO32
    ensures var e, n := Validate(host, l, b), |l.headers|;
            var linked := b.header.prevBlockHash == host.sha256(host.headerBytes(l.headers[n - 1]));
            && (e == Some(AlreadyContains) <==> b.header.height < n)
            && (e == Some(TooHigh) <==> b.header.height > n)
            && (e == Some(BadPrevHash) <==> b.header.height == n && !linked)
            && (e == Some(BadProof) <==>
                  b.header.height == n && linked && !EngineAccepts(host, l.engine, b.header))
            && (e == Some(Unverified) <==>
                  b.header.height == n && linked && EngineAccepts(host, l.engine, b.header)
                  && !Authentic(host, b))
  {
    hide Authentic;
    VerifiesExact(host, b);
  }

  lemma AddBlockValid(host: Host, l: Ledger, b: Block)
    requires Valid(host, l)
    ensures var r := AddBlock(host, l, b);
            && Valid(host, r.l)
            && Chain(r.l) == (if r.verdict.Accepted? then Chain(l) + [b] else Chain(l))
            && r.l.engine == l.engine
  {
    hide Validate;
    ValidateExact(host, l, b);
    var x := ExecuteTxs(host, l.world, b.transactions);
    WorldIrrelevant(host, l, x.w);
    if Validate(host, l, b).None? && x.verdict.Accepted? {
      var w := AddBalance(x.w, b.header.coinbase, REWARD);
      WorldIrrelevant(host, l, w);
      AppendValid(host, l.(world := w), b);
    }
  }

  lemma WorldIrrelevant(host: Host, l: Ledger, w: World)
    requires Valid(host, l)
    ensures Valid(host, l.(world := w))
    ensures Chain(l.(world := w)) == Chain(l)
  {}

  lemma NewChainValid(host: Host, genesis: Block)
    requires genesis.header.height == 0
    ensures Valid(host, NewChain(host, genesis))
    ensures Chain(NewChain(host, genesis)) == [genesis]
  {
    var l := NewChain(host, genesis);
    var c := [genesis];
    assert Chain(l) == c;
    assert c[..0] == [];
    assert AllTxs([]) == [];
    assert AllTxs(c) == [] + genesis.transactions == genesis.transactions;
    forall h: Hash
      ensures Find(l.store.byHash, h) == LastBlock(host, c, h)
      ensures Find(l.store.txByHash, h) == LastTx(host, AllTxs(c), h)
    {
      IndexTxsFinds(host, map[], genesis.transactions, h);
    }
  }

  /** After any run from an empty store: heights count up from zero, every header links to the one
      before it, all three store indexes answer as a scan of the chain would. */
  lemma {:induction false} RunValid(host: Host, genesis: Block, ops: seq<Op>)
    requires genesis.header.height == 0
    ensures var l := After(host, NewChain(host, genesis), ops);
            && Valid(host, l)
            && Chain(l)[0] == genesis
  {
    hide AddBlock, Linked, Indexed, Verified, NewChain, CameBack;
    NewChainValid(host, genesis);
    if ops == [] {
    } else {
      RunValid(host, genesis, ops[..|ops| - 1]);
      PlayNext(host, NewChain(host, genesis), ops);
      hide Play;
      var l := After(host, NewChain(host, genesis), ops[..|ops| - 1]);
      match ops[|ops| - 1]
      case Add(b) => AddBlockValid(host, l, b);
      case SetEngine(e) => EngineIrrelevant(host, l, e);
    }
  }

  lemma EngineIrrelevant(host: Host, l: Ledger, e: Engine)
    requires Valid(host, l)
    ensures Valid(host, l.(engine := e))
    ensures Chain(l.(engine := e)) == Chain(l)
  {}

  // ---- linking -------------------------------------------------------------------------

  /** Different headers with one hash. */
  predicate Collide(host: Host, h: Header, h': Header) {
    h != h' && host.sha256(host.headerBytes(h)) == host.sha256(host.headerBytes(h'))
  }

  /** Whoever built them, two linked chains whose headers at height `i` have equal hashes agree on all
      headers up to there, unless they exhibit a hash collision. */
  lemma {:induction false} HashFixesPast(host: Host, x: seq<Header>, y: seq<Header>, i: nat)
    requires Linked(host, x) && Linked(host, y)
    requires i < |x| && i < |y|
    requires host.sha256(host.headerBytes(x[i])) == host.sha256(host.headerBytes(y[i]))
    ensures || x[..i + 1] == y[..i + 1]
            || exists j :: 0 <= j <= i && Collide(host, x[j], y[j])
  {
    if x[i] == y[i] {
      if i == 0 {
        assert x[..1] == y[..1];
      } else {
        HashFixesPast(host, x, y, i - 1);
        if x[..i] == y[..i] {
          assert x[..i + 1] == x[..i] + [x[i]];
          assert y[..i + 1] == y[..i] + [y[i]];
        }
      }
    }
  }

  // ---- lookups ---------------------------------------------------------------------------

  lemma {:induction false} LastBlockSound(host: Host, chain: seq<Block>, h: Hash)
    ensures match LastBlock(host, chain, h)
            case None => forall b <- chain :: host.sha256(host.headerBytes(b.header)) != h
            case Some(b) => b in chain && host.sha256(host.headerBytes(b.header)) == h
  {
    if chain == [] {
    } else {
      LastBlockSound(host, chain[..|chain| - 1], h);
    }
  }

  /** Looking a header's hash up finds that header's block, unless the chain exhibits a collision;
      looking any other hash up finds nothing. */
  lemma GetByHashFinds(host: Host, l: Ledger, i: nat, h: Hash)
    requires Valid(host, l)
    requires i < |l.headers|
    ensures var b := Find(l.store.byHash, host.sha256(host.headerBytes(l.headers[i])));
            || b == Some(Chain(l)[i])
            || exists j :: 0 <= j < |l.headers| && Collide(host, l.headers[i], l.headers[j])
    ensures Find(l.store.byHash, h).None?
            <==> forall j :: 0 <= j < |l.headers| ==> host.sha256(host.headerBytes(l.headers[j])) != h
  {
    hide LastBlock, LastTx, Linked, Verified, AllTxs;
    var hash := host.sha256(host.headerBytes(l.headers[i]));
    LastBlockSound(host, Chain(l), hash);
    LastBlockSound(host, Chain(l), h);
    assert Chain(l)[i].header == l.headers[i];
    forall j | 0 <= j < |l.headers| ensures Chain(l)[j].header == l.headers[j] {}
    var found := Find(l.store.byHash, hash);
    assert found.Some?;
    var j :| 0 <= j < |l.headers| && Chain(l)[j] == found.value;
    assert l.headers[j].height == j;
  }

  // ---- reopening --------------------------------------------------------------------------

  /** Some height from `i` up has no block. */
  ghost predicate FreeFrom(st: Store, i: nat) {
    exists h: U32 :: i <= h && h !in st.blocks
  }

  /** The headers of consecutive stored heights from `i` up to the first free one. */
  function LoadFrom(st: Store, i: U32): seq<Header>
    requires FreeFrom(st, i)
    decreases TWO32 - i
  {
    if i in st.blocks then [st.blocks[i].header] + LoadFrom(st, i + 1) else []
  }

  lemma {:induction false} LoadFromMeans(st: Store, i: U32)
    requires FreeFrom(st, i)
    ensures var hs := LoadFrom(st, i);
            && i + |hs| < TWO32 && i + |hs| !in st.blocks
            && forall h: U32 :: i <= h < i + |hs| ==> h in st.blocks && hs[h - i] == st.blocks[h].header
    decreases TWO32 - i
  {
    if i !in st.blocks {
    } else {
      LoadFromMeans(st, i + 1);
      hide FreeFrom;
    }
  }

  datatype Loading = Loading(headers: seq<Header>, done: bool)

  /** `n` turns of the loading loop from height `i`; its uint32 counter wraps. */
  function LoadFor(st: Store, i: U32, n: nat): Loading
    decreases n
  {
    if n == 0 then Loading([], false)
    else if i !in st.blocks then Loading([], true)
    else
      var rest := LoadFor(st, (i + 1) % TWO32, n - 1);
      rest.(headers := [st.blocks[i].header] + rest.headers)
  }

  lemma {:induction false} LoadForDone(st: Store, i: U32, n: nat)
    requires FreeFrom(st, i)
    ensures LoadFor(st, i, n).done ==> LoadFor(st, i, n).headers == LoadFrom(st, i)
    ensures n >= TWO32 - i ==> LoadFor(st, i, n).done
    decreases n
  {
    if n == 0 || i !in st.blocks {
    } else {
      assert (i + 1) % TWO32 == i + 1;
      LoadForDone(st, i + 1, n - 1);
      hide FreeFrom;
    }
  }

  lemma {:induction false} LoadForever(st: Store, i: U32, n: nat)
    requires !FreeFrom(st, 0)
    ensures !LoadFor(st, i, n).done
    decreases n
  {
    if n == 0 {
    } else {
      LoadForever(st, (i + 1) % TWO32, n - 1);
    }
  }

  /** The loading loop ends exactly when some height is free, and then it has the headers below the
      first free one. */
  lemma LoadEndsExact(st: Store)
    ensures (exists n: nat :: LoadFor(st, 0, n).done) <==> FreeFrom(st, 0)
    ensures FreeFrom(st, 0) ==>
              forall n: nat :: LoadFor(st, 0, n).done ==> LoadFor(st, 0, n).headers == LoadFrom(st, 0)
  {
    hide LoadFor, LoadFrom, FreeFrom;
    if FreeFrom(st, 0) {
      forall n: nat ensures LoadFor(st, 0, n).done ==> LoadFor(st, 0, n).headers == LoadFrom(st, 0) {
        LoadForDone(st, 0, n);
      }
      LoadForDone(st, 0, TWO32);
    } else {
      forall n: nat ensures !LoadFor(st, 0, n).done {
        LoadForever(st, 0, n);
      }
    }
  }

  /** Opening a chain on a store, empty or not. Only headers are restored. */
  function OpenChain(host: Host, genesis: Block, st: Store): Ledger
    requires FreeFrom(st, 0)
  {
    if 0 in st.blocks then Ledger(LoadFrom(st, 0), EMPTY_WORLD, st, 0, NoEngine)
    else Append(host, Ledger([], EMPTY_WORLD, st, 0, NoEngine), genesis)
  }

  /** On an empty store that is a new chain. */
  lemma OpenEmpty(host: Host, genesis: Block)
    ensures FreeFrom(EMPTY_STORE, 0)
    ensures OpenChain(host, genesis, EMPTY_STORE) == NewChain(host, genesis)
  {
    var h: U32 := 0;
    assert h !in EMPTY_STORE.blocks;
  }

  lemma {:induction false} LoadFromIs(l: Ledger, i: U32)
    requires Stored(l) && i <= |l.headers|
    requires FreeFrom(l.store, i)
    ensures LoadFrom(l.store, i) == l.headers[i..]
    decreases TWO32 - i
  {
    if i == |l.headers| {
    } else {
      LoadFromIs(l, i + 1);
    }
  }

  lemma FreeAbove(l: Ledger)
    requires Stored(l)
    ensures FreeFrom(l.store, 0) <==> |l.headers| < TWO32
  {
    if |l.headers| < TWO32 {
      var h: U32 := |l.headers|;
      assert h !in l.store.blocks;
    }
  }

  /** Loading the store of a run ends exactly while the chain is below the height limit, and reopening
      it then rebuilds exactly its headers; balances and total difficulty start from nothing again. */
  lemma ReopenRestores(host: Host, genesis: Block, ops: seq<Op>, genesis': Block)
    requires genesis.header.height == 0
    ensures var l := After(host, NewChain(host, genesis), ops);
            && ((exists n: nat :: LoadFor(l.store, 0, n).done) <==> |l.headers| < TWO32)
            && (|l.headers| < TWO32 ==>
                  && FreeFrom(l.store, 0)
                  && OpenChain(host, genesis', l.store)
                     == Ledger(l.headers, EMPTY_WORLD, l.store, 0, NoEngine)
                  && Valid(host, OpenChain(host, genesis', l.store)))
  {
    hide After, NewChain, Linked, Indexed, Verified, LoadFor, FreeFrom;
    RunValid(host, genesis, ops);
    var l := After(host, NewChain(host, genesis), ops);
    LoadEndsExact(l.store);
    FreeAbove(l);
    if |l.headers| < TWO32 {
      LoadFromIs(l, 0);
      assert l.headers[0..] == l.headers;
      SameChainValid(host, l, OpenChain(host, genesis', l.store));
    }
  }

  lemma SameChainValid(host: Host, l: Ledger, l': Ledger)
    requires Valid(host, l)
    requires l'.headers == l.headers && l'.store == l.store
    ensures Valid(host, l')
    ensures Chain(l') == Chain(l)
  {
    assert Stored(l');
    assert Chain(l') == Chain(l);
  }

  // ---- cumulative difficulty -----------------------------------------------------------------

  function Weights(headers: seq<Header>): nat {
    if headers == [] then 0
    else Weights(headers[..|headers| - 1]) + Pow2(headers[|headers| - 1].difficulty)
  }

  lemma AddBlockHeaders(host: Host, l: Ledger, b: Block)
    ensures var r := AddBlock(host, l, b);
            && r.l.engine == l.engine
            && if r.verdict.Accepted?
               then r.l.headers == l.headers + [b.header]
                    && r.l.totalDifficulty
                       == l.totalDifficulty + (if l.engine.PoW? then Pow2(b.header.difficulty) else 0)
               else r.l.headers == l.headers && r.l.totalDifficulty == l.totalDifficulty
  {
    hide Validate, ExecuteTxs;
  }

  /** While proof of work stays set, whatever its target, total difficulty grows by exactly the weights of the
      blocks added; headers are only ever appended. */
  lemma {:induction false} DifficultyGrows(host: Host, l: Ledger, ops: seq<Op>)
    requires l.engine.PoW?
    requires forall op <- ops :: op.SetEngine? ==> op.engine.PoW?
    ensures var l' := After(host, l, ops);
            && l'.engine.PoW?
            && l.headers <= l'.headers
            && l'.totalDifficulty == l.totalDifficulty + Weights(l'.headers[|l.headers|..])
  {
    hide AddBlock, Pow2, CameBack;
    if ops == [] {
      assert l.headers[|l.headers|..] == [];
    } else {
      var n := |ops| - 1;
      DifficultyGrows(host, l, ops[..n]);
      PlayNext(host, l, ops);
      hide Play;
      var m := After(host, l, ops[..n]);
      assert ops[n] in ops;
      if ops[n].Add? {
        AddBlockHeaders(host, m, ops[n].block);
      }
      var l' := After(host, l, ops);
      if l'.headers != m.headers {
        var tail := l'.headers[|l.headers|..];
        assert tail[..|tail| - 1] == m.headers[|l.headers|..];
      }
    }
  }
}
