/** The transaction pool as two sequences, and what it holds after any run. */
module PoolSpec {
  import opened Basics
  import opened Types

  datatype Pool = Pool(all: seq<Transaction>, pending: seq<Transaction>)

  predicate HasHash(host: Host, txs: seq<Transaction>, h: Hash) {
    exists i :: 0 <= i < |txs| && host.sha256(txs[i].data) == h
  }

  predicate Distinct(host: Host, txs: seq<Transaction>) {
    forall i, j :: 0 <= i < j < |txs| ==> host.sha256(txs[i].data) != host.sha256(txs[j].data)
  }

  /** Appended unless its hash is there already. */
  function Include(host: Host, txs: seq<Transaction>, tx: Transaction): seq<Transaction> {
    if HasHash(host, txs, host.TxHash(tx)) then txs else txs + [tx]
  }

  lemma IncludeNew(host: Host, txs: seq<Transaction>, tx: Transaction)
    requires !HasHash(host, txs, host.TxHash(tx))
    ensures Include(host, txs, tx) == txs + [tx]
  {}

  /** A full pool loses its oldest entry first, whether or not the newcomer then gets in. */
  function Add(host: Host, max: nat, p: Pool, tx: Transaction): Pool
    requires max >= 1
  {
    var kept := if |p.all| == max then p.all[1..] else p.all;
    if HasHash(host, kept, host.TxHash(tx)) then p.(all := kept)
    else Pool(kept + [tx], Include(host, p.pending, tx))
  }

  datatype Event = Submit(tx: Transaction) | ClearPending

  /** `Submit` is what the server does with an incoming transaction. */
  predicate Takes(host: Host, p: Pool, tx: Transaction) {
    !HasHash(host, p.all, host.TxHash(tx)) && host.TxVerifies(tx)
  }

  function Apply(host: Host, max: nat, p: Pool, e: Event): Pool
    requires max >= 1
  {
    match e
    case Submit(tx) => if Takes(host, p, tx) then Add(host, max, p, tx) else p
    case ClearPending => p.(pending := [])
  }

  function Continue(host: Host, max: nat, p: Pool, events: seq<Event>): Pool
    requires max >= 1
  {
    if events == [] then p
    else Apply(host, max, Continue(host, max, p, events[..|events| - 1]), events[|events| - 1])
  }

  function After(host: Host, max: nat, events: seq<Event>): Pool
    requires max >= 1
  {
    Continue(host, max, Pool([], []), events)
  }

  /** Told from the transactions taken so far alone: the sender signed the payload, and none of the last
      `max` taken has the same payload hash. */
  predicate Wanted(host: Host, max: nat, ever: seq<Transaction>, tx: Transaction) {
    && tx.signature.Some? && host.verify(tx.from, tx.data, tx.signature.value)
    && forall q <- LastOf(ever, max) :: host.sha256(q.data) != host.sha256(tx.data)
  }

  /** The submissions wanted, in order, and those since pending was last cleared. */
  function Taken(host: Host, max: nat, events: seq<Event>): (seq<Transaction>, seq<Transaction>) {
    if events == [] then ([], [])
    else
      var (ever, recent) := Taken(host, max, events[..|events| - 1]);
      match events[|events| - 1]
      case Submit(tx) =>
        if Wanted(host, max, ever, tx) then (ever + [tx], recent + [tx]) else (ever, recent)
      case ClearPending => (ever, [])
  }

  /** One transaction per hash, the first, in order of first appearance. */
  function FirstOccurrences(host: Host, txs: seq<Transaction>): seq<Transaction> {
    if txs == [] then []
    else
      var n := |txs| - 1;
      var rest := FirstOccurrences(host, txs[..n]);
      if HasHash(host, txs[..n], host.sha256(txs[n].data)) then rest else rest + [txs[n]]
  }

  function LastOf(txs: seq<Transaction>, n: nat): seq<Transaction> {
    if |txs| <= n then txs else txs[|txs| - n..]
  }

  lemma {:induction false} FirstOccurrencesDistinct(host: Host, txs: seq<Transaction>)
    ensures Distinct(host, FirstOccurrences(host, txs))
    ensures forall h: Hash :: HasHash(host, FirstOccurrences(host, txs), h) <==> HasHash(host, txs, h)
  {
    if txs == [] {
    } else {
      var n := |txs| - 1;
      var r := FirstOccurrences(host, txs[..n]);
      FirstOccurrencesDistinct(host, txs[..n]);
      forall h: Hash
        ensures HasHash(host, FirstOccurrences(host, txs), h) <==> HasHash(host, txs, h)
      {
        HasHashAppend(host, r, txs[n], h);
        HasHashAppend(host, txs[..n], txs[n], h);
        assert txs[..n] + [txs[n]] == txs;
      }
    }
  }

  lemma HasHashAppend(host: Host, txs: seq<Transaction>, tx: Transaction, h: Hash)
    ensures HasHash(host, txs + [tx], h) <==> HasHash(host, txs, h) || host.TxHash(tx) == h
  {
    var more := txs + [tx];
    assert more[|txs|] == tx;
    forall i | 0 <= i < |txs| ensures more[i] == txs[i] {}
    if HasHash(host, txs, h) {
      var i :| 0 <= i < |txs| && host.sha256(txs[i].data) == h;
      assert host.sha256(more[i].data) == h;
    } else if HasHash(host, more, h) {
      var i :| 0 <= i < |more| && host.sha256(more[i].data) == h;
      assert i == |txs|;
    }
  }

  lemma TakesExact(host: Host, max: nat, p: Pool, ever: seq<Transaction>, tx: Transaction)
    requires p.all == LastOf(ever, max)
    ensures Takes(host, p, tx) <==> Wanted(host, max, ever, tx)
  {
    if Wanted(host, max, ever, tx) {
      forall i | 0 <= i < |p.all| ensures host.sha256(p.all[i].data) != host.sha256(tx.data) {
        assert p.all[i] in LastOf(ever, max);
      }
    }
  }

  /** After any run on a pool of positive size: the pool is the last `max` submissions wanted, in
      order and with distinct hashes; pending is what was wanted since the last clear, first
      occurrences only, evicted or not. */
  lemma {:induction false} PoolHistory(host: Host, max: nat, events: seq<Event>)
    requires max >= 1
    ensures var p, t := After(host, max, events), Taken(host, max, events);
            && p.all == LastOf(t.0, max)
            && Distinct(host, p.all)
            && p.pending == FirstOccurrences(host, t.1)
  {
    hide Distinct, HasHash;
    if events == [] {
      NoneDistinct(host);
    } else {
      var n := |events| - 1;
      var before := events[..n];
      PoolHistory(host, max, before);
      var p, t := After(host, max, before), Taken(host, max, before);
      match events[n]
      case ClearPending =>
      case Submit(tx) =>
        TakesExact(host, max, p, t.0, tx);
        if Takes(host, p, tx) {
          TakeKeeps(host, max, p, t.0, t.1, tx);
        }
    }
  }

  lemma NoneDistinct(host: Host)
    ensures Distinct(host, [])
  {}

  lemma TakeKeeps(host: Host, max: nat, p: Pool, ever: seq<Transaction>, recent: seq<Transaction>,
                  tx: Transaction)
    requires max >= 1
    requires p.all == LastOf(ever, max) && Distinct(host, p.all)
    requires p.pending == FirstOccurrences(host, recent)
    requires Takes(host, p, tx)
    ensures var p' := Add(host, max, p, tx);
            && p'.all == LastOf(ever + [tx], max)
            && Distinct(host, p'.all)
            && p'.pending == FirstOccurrences(host, recent + [tx])
  {
    hide Distinct, HasHash;
    var k := if |p.all| == max then 1 else 0;
    StillLacks(host, p.all, k, host.TxHash(tx));
    assert Add(host, max, p, tx) == Pool(p.all[k..] + [tx], Include(host, p.pending, tx));
    assert p.all[k..] + [tx] == LastOf(ever + [tx], max);
    assert (recent + [tx])[..|recent|] == recent;
    FirstOccurrencesDistinct(host, recent);
    DropDistinct(host, p.all, tx, k);
  }

  /** Everything pooled or pending was verified on the way in. */
  lemma {:induction false} PoolVerified(host: Host, max: nat, events: seq<Event>)
    requires max >= 1
    ensures var p := After(host, max, events);
            forall tx <- p.all + p.pending ::
              tx.signature.Some? && host.verify(tx.from, tx.data, tx.signature.value)
  {
    if events == [] {
    } else {
      PoolVerified(host, max, events[..|events| - 1]);
    }
  }

  lemma StillLacks(host: Host, txs: seq<Transaction>, k: nat, h: Hash)
    requires k <= |txs| && !HasHash(host, txs, h)
    ensures !HasHash(host, txs[k..], h)
  {
    forall i | 0 <= i < |txs[k..]| ensures host.TxHash(txs[k..][i]) != h {
      assert txs[k..][i] == txs[k + i];
    }
  }

  lemma DropDistinct(host: Host, txs: seq<Transaction>, tx: Transaction, k: nat)
    requires k <= |txs| && Distinct(host, txs) && !HasHash(host, txs, host.TxHash(tx))
    ensures Distinct(host, txs[k..] + [tx])
  {}

  /** The list without the transaction of that hash. */
  function Without(host: Host, txs: seq<Transaction>, h: Hash): seq<Transaction> {
    if txs == [] then []
    else if host.TxHash(txs[0]) == h then txs[1..]
    else [txs[0]] + Without(host, txs[1..], h)
  }

  lemma {:induction false} WithoutAt(host: Host, txs: seq<Transaction>, i: nat)
    requires i < |txs| && Distinct(host, txs)
    ensures Without(host, txs, host.TxHash(txs[i])) == txs[..i] + txs[i + 1..]
  {
    if i == 0 {
      assert txs[..0] + txs[1..] == txs[1..];
    } else {
      var tail := txs[1..];
      TailDistinct(host, txs, i);
      hide Distinct;
      WithoutAt(host, tail, i - 1);
      assert tail[i - 1] == txs[i];
      assert [txs[0]] + (tail[..i - 1] + tail[i..]) == txs[..i] + txs[i + 1..];
    }
  }

  lemma TailDistinct(host: Host, txs: seq<Transaction>, i: nat)
    requires 0 < i < |txs| && Distinct(host, txs)
    ensures Distinct(host, txs[1..])
    ensures host.TxHash(txs[0]) != host.TxHash(txs[i])
  {}

  lemma {:induction false} WithoutAbsent(host: Host, txs: seq<Transaction>, h: Hash)
    requires !HasHash(host, txs, h)
    ensures Without(host, txs, h) == txs
  {
    if txs == [] {
    } else {
      StillLacks(host, txs, 1, h);
      WithoutAbsent(host, txs[1..], h);
    }
  }
}
