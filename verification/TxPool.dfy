/** The transaction pool in its own form: a list and a map kept in step, two of them. */
module TxPool {
  import opened Basics
  import opened Types
  import opened List
  import PoolSpec

  class TxSortedMap {
    const host: Host
    var lookup: map<Hash, Transaction>
    const txx: List<Transaction>

    ghost predicate Valid()
      reads this, txx, txx.buf
    {
      txx.Valid() && InStep(host, txx.Items(), lookup)
    }

    ghost function Items(): seq<Transaction>
      requires Valid()
      reads this, txx, txx.buf
    {
      txx.Items()
    }

    constructor (host: Host)
      ensures this.host == host
      ensures Valid() && Items() == [] && fresh(txx) && fresh(txx.buf)
    {
      this.host := host;
      lookup := map[];
      txx := new List();
    }

    method First() returns (tx: Transaction)
      requires Valid() && Items() != []
      ensures tx == Items()[0]
    {
      var first := txx.Get(0);
      tx := lookup[host.TxHash(first)];
    }

    method Contains(h: Hash) returns (found: bool)
      requires Valid()
      ensures found == PoolSpec.HasHash(host, Items(), h)
    {
      found := h in lookup;
      Known(host, Items(), lookup, h);
    }

    method Count() returns (n: nat)
      requires Valid()
      ensures n == |Items()|
    {
      n := |lookup|;
      SizesAgree(host, Items(), lookup.Keys);
    }

    method Add(tx: Transaction, slack: nat)
      requires Valid()
      modifies this, txx, txx.buf
      ensures Valid() && Items() == PoolSpec.Include(host, old(Items()), tx)
      ensures txx.buf == old(txx.buf) || fresh(txx.buf)
      ensures old(txx.buf)[..old(txx.len)] == old(txx.buf[..txx.len])
      ensures old(txx.len) <= txx.len
    {
      hide InStep;
      var h := host.TxHash(tx);
      ghost var before := Items();
      Known(host, before, lookup, h);
      if h !in lookup {
        Included(host, before, tx, lookup);
        lookup := lookup[h := tx];
        txx.Insert(tx, slack);
      }
    }

    method Remove(h: Hash)
      requires Valid()
      modifies this, txx, txx.buf
      ensures Valid() && Items() == PoolSpec.Without(host, old(Items()), h)
      ensures txx.buf == old(txx.buf)
    {
      hide InStep;
      ghost var before := Items();
      Known(host, before, lookup, h);
      if h in lookup {
        var tx := lookup[h];
        Entry(host, before, lookup, h);
        txx.Remove(tx);
        ghost var i :| && 0 <= i < |before| && before[i] == tx
                       && txx.Items() == before[..i] + before[i + 1..];
        PoolSpec.WithoutAt(host, before, i);
        Removed(host, before, i, lookup);
        lookup := lookup - {h};
      } else {
        PoolSpec.WithoutAbsent(host, before, h);
      }
    }

    method Clear()
      modifies this, txx
      ensures Valid() && Items() == [] && fresh(txx.buf)
    {
      lookup := map[];
      txx.Clear();
    }
  }

  /** List and map hold the same transactions, one per hash. */
  ghost predicate InStep(host: Host, txs: seq<Transaction>, lookup: map<Hash, Transaction>) {
    && PoolSpec.Distinct(host, txs)
    && (forall i :: 0 <= i < |txs| ==>
          host.TxHash(txs[i]) in lookup && lookup[host.TxHash(txs[i])] == txs[i])
    && (forall h <- lookup :: PoolSpec.HasHash(host, txs, h))
  }

  lemma Removed(host: Host, txs: seq<Transaction>, i: nat, lookup: map<Hash, Transaction>)
    requires i < |txs| && InStep(host, txs, lookup)
    ensures InStep(host, txs[..i] + txs[i + 1..], lookup - {host.TxHash(txs[i])})
  {
    var rest := txs[..i] + txs[i + 1..];
    forall k <- lookup - {host.TxHash(txs[i])} ensures PoolSpec.HasHash(host, rest, k) {
      var j :| 0 <= j < |txs| && host.TxHash(txs[j]) == k;
      assert rest[if j < i then j else j - 1] == txs[j];
    }
  }

  lemma Included(host: Host, txs: seq<Transaction>, tx: Transaction, lookup: map<Hash, Transaction>)
    requires InStep(host, txs, lookup)
    requires host.TxHash(tx) !in lookup
    ensures InStep(host, txs + [tx], lookup[host.TxHash(tx) := tx])
  {
    forall k <- lookup[host.TxHash(tx) := tx] ensures PoolSpec.HasHash(host, txs + [tx], k) {
      PoolSpec.HasHashAppend(host, txs, tx, k);
    }
  }

  lemma Entry(host: Host, txs: seq<Transaction>, lookup: map<Hash, Transaction>, h: Hash)
    requires InStep(host, txs, lookup) && h in lookup
    ensures host.TxHash(lookup[h]) == h && lookup[h] in txs && PoolSpec.Distinct(host, txs)
  {
    var i :| 0 <= i < |txs| && host.TxHash(txs[i]) == h;
  }

  lemma Known(host: Host, txs: seq<Transaction>, lookup: map<Hash, Transaction>, h: Hash)
    requires InStep(host, txs, lookup)
    ensures h in lookup <==> PoolSpec.HasHash(host, txs, h)
  {}

  /** Distinct hashes make the map exactly as large as the list. */
  lemma {:induction false} SizesAgree(host: Host, txs: seq<Transaction>, keys: set<Hash>)
    requires PoolSpec.Distinct(host, txs)
    requires forall i :: 0 <= i < |txs| ==> host.TxHash(txs[i]) in keys
    requires forall h <- keys :: PoolSpec.HasHash(host, txs, h)
    ensures |keys| == |txs|
    decreases |txs|
  {
    if txs == [] {
      assert keys == {};
    } else {
      var n := |txs| - 1;
      var h := host.TxHash(txs[n]);
      forall k <- keys - {h} ensures PoolSpec.HasHash(host, txs[..n], k) {
        var i :| 0 <= i < |txs| && host.TxHash(txs[i]) == k;
        assert txs[..n][i] == txs[i];
      }
      SizesAgree(host, txs[..n], keys - {h});
    }
  }

  class TxPool {
    const all: TxSortedMap
    const pending: TxSortedMap
    const maxLength: nat

    ghost predicate Valid()
      reads this, all, all.txx, all.txx.buf, pending, pending.txx, pending.txx.buf
    {
      && all != pending && all.txx != pending.txx && all.txx.buf != pending.txx.buf
      && all.Valid() && pending.Valid()
      && all.host == pending.host
      && maxLength >= 1
      && |all.Items()| <= maxLength
    }

    ghost function View(): PoolSpec.Pool
      requires Valid()
      reads this, all, all.txx, all.txx.buf, pending, pending.txx, pending.txx.buf
    {
      PoolSpec.Pool(all.Items(), pending.Items())
    }

    constructor (host: Host, maxLength: nat)
      requires maxLength >= 1
      ensures Valid() && View() == PoolSpec.Pool([], []) && this.maxLength == maxLength
      ensures all.host == host
      ensures fresh(all) && fresh(all.txx) && fresh(all.txx.buf)
      ensures fresh(pending) && fresh(pending.txx) && fresh(pending.txx.buf)
    {
      all := new TxSortedMap(host);
      pending := new TxSortedMap(host);
      this.maxLength := maxLength;
    }

    /** The two appends may grow their arrays by different amounts. */
    method Add(tx: Transaction, slack: nat, slack': nat)
      requires Valid()
      modifies all, all.txx, all.txx.buf, pending, pending.txx, pending.txx.buf
      ensures Valid() && View() == PoolSpec.Add(all.host, maxLength, old(View()), tx)
      ensures all.txx.buf == old(all.txx.buf) || fresh(all.txx.buf)
      ensures pending.txx.buf == old(pending.txx.buf) || fresh(pending.txx.buf)
      ensures old(pending.txx.buf)[..old(pending.txx.len)] == old(pending.txx.buf[..pending.txx.len])
      ensures old(pending.txx.len) <= pending.txx.len
    {
      hide InStep, PoolSpec.HasHash, PoolSpec.Include;
      ghost var p := View();
      ghost var kept := if |p.all| == maxLength then p.all[1..] else p.all;
      var n := all.Count();
      if n == maxLength {
        var oldest := all.First();
        all.Remove(all.host.TxHash(oldest));
      }
      assert all.Items() == kept;
      hide PoolSpec.Without;
      var known := all.Contains(all.host.TxHash(tx));
      if !known {
        PoolSpec.IncludeNew(all.host, kept, tx);
        all.Add(tx, slack);
        pending.Add(tx, slack');
      }
    }

    /** The slice itself, not a copy. */
    method Pending() returns (s: Slice<Transaction>)
      requires Valid()
      ensures s == Slice(pending.txx.buf, pending.txx.len)
      ensures s.Valid() && s.Contents() == View().pending
    {
      s := Slice(pending.txx.buf, pending.txx.len);
    }

    method ClearPending()
      requires Valid()
      modifies pending, pending.txx
      ensures Valid() && View() == old(View()).(pending := [])
      ensures fresh(pending.txx.buf)
    {
      pending.Clear();
    }

    /** What the server does with a transaction it receives. */
    method Submit(tx: Transaction, slack: nat, slack': nat)
      requires Valid()
      modifies all, all.txx, all.txx.buf, pending, pending.txx, pending.txx.buf
      ensures Valid()
      ensures View() == PoolSpec.Apply(all.host, maxLength, old(View()), PoolSpec.Submit(tx))
      ensures all.txx.buf == old(all.txx.buf) || fresh(all.txx.buf)
      ensures pending.txx.buf == old(pending.txx.buf) || fresh(pending.txx.buf)
      ensures old(pending.txx.buf)[..old(pending.txx.len)] == old(pending.txx.buf[..pending.txx.len])
      ensures old(pending.txx.len) <= pending.txx.len
    {
      var known := all.Contains(all.host.TxHash(tx));
      if !known && all.host.TxVerifies(tx) {
        Add(tx, slack, slack');
      }
    }
  }

  /** `s` was returned by `Pending` at some earlier moment. */
  ghost predicate Held(pool: TxPool, s: Slice<Transaction>)
    reads pool, pool.all, pool.all.txx, pool.pending, pool.pending.txx
  {
    && s.Valid()
    && s.buf != pool.all.txx.buf
    && (s.buf == pool.pending.txx.buf ==> s.len <= pool.pending.txx.len)
  }

  /** Any later submissions and clears: the pool follows its specification, and a slice handed out
      before them keeps its contents although it shares the pool's backing array. `slack` is how much
      each append over-allocates. */
  method Serve(pool: TxPool, s: Slice<Transaction>, events: seq<PoolSpec.Event>, slack: nat -> nat)
    requires pool.Valid() && Held(pool, s)
    modifies pool.all, pool.all.txx, pool.all.txx.buf
    modifies pool.pending, pool.pending.txx, pool.pending.txx.buf
    ensures pool.Valid() && Held(pool, s)
    ensures pool.View() == PoolSpec.Continue(pool.all.host, pool.maxLength, old(pool.View()), events)
    ensures s.Contents() == old(s.Contents())
  {
    hide InStep, PoolSpec.Apply;
    ghost var start := pool.View();
    var i := 0;
    while i < |events|
      invariant 0 <= i <= |events|
      invariant pool.Valid() && Held(pool, s)
      invariant pool.all.txx.buf == old(pool.all.txx.buf) || fresh(pool.all.txx.buf)
      invariant pool.pending.txx.buf == old(pool.pending.txx.buf) || fresh(pool.pending.txx.buf)
      invariant pool.View() == PoolSpec.Continue(pool.all.host, pool.maxLength, start, events[..i])
      invariant s.Contents() == old(s.Contents())
    {
      assert events[..i + 1][..i] == events[..i];
      ghost var pool0 := pool.View();
      match events[i] {
        case Submit(tx) =>
          pool.Submit(tx, slack(2 * i), slack(2 * i + 1));
        case ClearPending =>
          pool.ClearPending();
          Cleared(pool.all.host, pool.maxLength, pool0);
      }
      i := i + 1;
    }
    assert events[..i] == events;
  }

  lemma Cleared(host: Host, max: nat, p: PoolSpec.Pool)
    requires max >= 1
    ensures PoolSpec.Apply(host, max, p, PoolSpec.ClearPending) == p.(pending := [])
  {}
}
