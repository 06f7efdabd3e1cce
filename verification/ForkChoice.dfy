/** The two fork-choice rules and how they order chains. */
module ForkChoice {
  import opened Basics
  import opened Types
  import opened Ledger
  import opened LedgerRuns

  datatype Metadata = Metadata(height: U32, difficulty: nat)

  /** Positive if the first chain is preferred, negative if the second, zero if neither. */
  function Longest(a: Metadata, b: Metadata): int {
    if a.height > b.height then 1 else if b.height > a.height then -1 else 0
  }

  function Heaviest(a: Metadata, b: Metadata): int {
    var cmp := if a.difficulty > b.difficulty then 1 else if a.difficulty < b.difficulty then -1 else 0;
    if cmp != 0 then cmp
    else if a.height > b.height then 1
    else if b.height > a.height then -1
    else 0
  }

  /** What a node that ran proof of work from genesis reports about its chain. */
  function Report(headers: seq<Header>): Metadata
    requires 1 <= |headers| <= TWO32
  {
    Metadata(|headers| - 1, Weights(headers[1..]))
  }

  /** More difficulty wins, then more height; any two chains are comparable, ties are exactly equal
      metrics, and preference is transitive. */
  lemma HeaviestIsTotalPreorder(a: Metadata, b: Metadata, c: Metadata)
    ensures a.difficulty > b.difficulty ==> Heaviest(a, b) > 0
    ensures Longest(a, b) > 0 <==> a.height > b.height
    ensures Longest(a, b) == -Longest(b, a) && Longest(a, b) in {-1, 0, 1} && Heaviest(a, b) in {-1, 0, 1}
    ensures a.difficulty == b.difficulty ==> Heaviest(a, b) == Longest(a, b)
    ensures Heaviest(a, b) == -Heaviest(b, a)
    ensures Heaviest(a, b) == 0 <==> a == b
    ensures Heaviest(a, b) >= 0 && Heaviest(b, c) >= 0 ==> Heaviest(a, c) >= 0
    ensures Heaviest(a, b) > 0 && Heaviest(b, c) >= 0 ==> Heaviest(a, c) > 0
  {}

  lemma {:induction false} WeightsAppend(x: seq<Header>, y: seq<Header>)
    ensures Weights(x + y) == Weights(x) + Weights(y)
    decreases |y|
  {
    if y == [] {
      assert x + y == x;
    } else {
      var n := |y| - 1;
      WeightsAppend(x, y[..n]);
      assert (x + y)[..|x| + n] == x + y[..n];
    }
  }

  lemma WeightsPositive(x: seq<Header>)
    requires x != []
    ensures Weights(x) > 0
  {}

  /** A chain always loses to its own proper extension. */
  lemma ExtensionPreferred(x: seq<Header>, more: seq<Header>)
    requires 1 <= |x| && more != [] && |x + more| <= TWO32
    ensures Heaviest(Report(x + more), Report(x)) == 1
    ensures Longest(Report(x + more), Report(x)) == 1
  {
    assert (x + more)[1..] == x[1..] + more;
    WeightsAppend(x[1..], more);
    WeightsPositive(more);
  }

  lemma {:induction false} EqualWeights(x: seq<Header>, d: Difficulty)
    requires forall h <- x :: h.difficulty == d
    ensures Weights(x) == |x| * Pow2(d)
  {
    if x == [] {
    } else {
      var n := |x| - 1;
      EqualWeights(x[..n], d);
      assert x[n] in x;
      assert |x| * Pow2(d) == n * Pow2(d) + Pow2(d);
    }
  }

  /** When every block has the same difficulty the heaviest chain is the longest. */
  lemma EqualDifficultyAgree(x: seq<Header>, y: seq<Header>, d: Difficulty)
    requires 1 <= |x| <= TWO32 && 1 <= |y| <= TWO32
    requires forall h <- x[1..] + y[1..] :: h.difficulty == d
    ensures Heaviest(Report(x), Report(y)) == Longest(Report(x), Report(y))
  {
    assert forall h <- x[1..] :: h in x[1..] + y[1..];
    assert forall h <- y[1..] :: h in x[1..] + y[1..];
    EqualWeights(x[1..], d);
    EqualWeights(y[1..], d);
    MulOrder(|x| - 1, |y| - 1, Pow2(d));
  }

  /** The running total a node keeps, while proof of work is set from a fresh chain on, is the
      difficulty its chain reports. */
  lemma TotalIsReported(host: Host, genesis: Block, target: Difficulty, ops: seq<Op>)
    requires genesis.header.height == 0
    requires forall op <- ops :: op.SetEngine? ==> op.engine.PoW?
    ensures var l := After(host, NewChain(host, genesis).(engine := PoW(target)), ops);
            && 1 <= |l.headers| <= TWO32
            && Report(l.headers) == Metadata(Height(l), l.totalDifficulty)
  {
    hide Play, NewChain, Linked, Indexed, Verified;
    var l0 := NewChain(host, genesis).(engine := PoW(target));
    NewChainReports(host, genesis);
    DifficultyGrows(host, l0, ops);
    RunValid(host, genesis, [SetEngine(PoW(target))] + ops);
    PlaySplit(host, NewChain(host, genesis), PoW(target), ops);
  }

  lemma NewChainReports(host: Host, genesis: Block)
    ensures |NewChain(host, genesis).headers| == 1
    ensures NewChain(host, genesis).totalDifficulty == 0
  {}

  lemma {:induction false} PlaySplit(host: Host, l: Ledger, e: Engine, ops: seq<Op>)
    ensures Play(host, l, [SetEngine(e)] + ops) == Play(host, l.(engine := e), ops)
    decreases |ops|
  {
    hide AddBlock;
    var all := [SetEngine(e)] + ops;
    if ops == [] {
      assert all == [SetEngine(e)];
      assert Play(host, l, []) == Result(l, Accepted);
      assert all[..0] == [];
    } else {
      PlaySplit(host, l, e, ops[..|ops| - 1]);
      assert all[..|all| - 1] == [SetEngine(e)] + ops[..|ops| - 1];
    }
  }
}
