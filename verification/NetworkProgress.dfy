/** What the gossip and sync protocol can always achieve. */
module NetworkProgress {
  import opened Basics
  import opened Types
  import opened Accounts
  import opened Ledger
  import opened LedgerRuns
  import opened LedgerHistory
  import opened Network
  import opened Mining

  // ---- every header satisfies the engine that let it in ------------------------------

  ghost predicate Sealed(host: Host, engine: Engine, headers: seq<Header>) {
    forall i :: 1 <= i < |headers| ==> EngineAccepts(host, engine, headers[i])
  }

  lemma AddBlockSealed(host: Host, l: Ledger, b: Block)
    requires 1 <= |l.headers| <= TWO32 && Sealed(host, l.engine, l.headers)
    ensures Sealed(host, l.engine, AddBlock(host, l, b).l.headers)
  {
    hide Validate, ExecuteTxs, EngineAccepts;
    ValidateExact(host, l, b);
    AddBlockHeaders(host, l, b);
  }

  lemma {:induction false} AddAllSealed(host: Host, l: Ledger, bs: seq<Block>)
    requires Valid(host, l) && Sealed(host, l.engine, l.headers)
    ensures AddAll(host, l, bs).l.engine == l.engine
    ensures Sealed(host, l.engine, AddAll(host, l, bs).l.headers)
    decreases |bs|
  {
    hide AddBlock, Linked, Indexed, Verified, Sealed;
    if bs == [] {
    } else {
      AddBlockSealed(host, l, bs[0]);
      AddBlockValid(host, l, bs[0]);
      var r := AddBlock(host, l, bs[0]);
      if r.verdict.Accepted? {
        AddAllSealed(host, r.l, bs[1..]);
      }
    }
  }

  /** Engines stay as booted and every chain satisfies its node's engine. */
  ghost predicate AllSealed(host: Host, engines: seq<Engine>, s: System) {
    && |s.nodes| == |engines|
    && (forall i :: 0 <= i < |s.nodes| ==>
          s.nodes[i].engine == engines[i] && Sealed(host, engines[i], s.nodes[i].headers))
  }

  lemma NextSealed(host: Host, engines: seq<Engine>, s: System, e: Event)
    requires Safe(host, s) && AllSealed(host, engines, s)
    ensures AllSealed(host, engines, Next(host, s, e))
  {
    hide AddBlock, AddAll, Linked, Indexed, Verified, Sealed, Answer, CollectEnds;
    match e
    case Produce(b) =>
      AddBlockSealed(host, s.nodes[0], b);
      AddBlockHeaders(host, s.nodes[0], b);
    case Deliver(p) =>
      if CanArrive(s, p) {
        var l := s.nodes[p.dst];
        assert Follows(host, l, Chain(s.nodes[0]));
        match p.msg
        case NewBlock(b) => AddBlockSealed(host, l, b); AddBlockHeaders(host, l, b);
        case Blocks(bs) => AddAllSealed(host, l, bs);
        case _ =>
      }
    case AskStatus(_, _) =>
  }

  lemma {:induction false} TraceSealed(host: Host, genesis: Block, engines: seq<Engine>, events: seq<Event>)
    requires genesis.header.height == 0 && engines != []
    ensures AllSealed(host, engines, Trace(host, Boot(host, genesis, engines), events))
  {
    hide Next, Safe, Sealed;
    var s0 := Boot(host, genesis, engines);
    if events == [] {
      BootSealed(host, genesis, engines);
    } else {
      var n := |events| - 1;
      TraceSealed(host, genesis, engines, events[..n]);
      PrefixSafety(host, genesis, engines, events[..n]);
      NextSealed(host, engines, Trace(host, s0, events[..n]), events[n]);
    }
  }

  lemma BootSealed(host: Host, genesis: Block, engines: seq<Engine>)
    ensures AllSealed(host, engines, Boot(host, genesis, engines))
  {
    var s := Boot(host, genesis, engines);
    forall i | 0 <= i < |engines|
      ensures s.nodes[i].engine == engines[i] && Sealed(host, engines[i], s.nodes[i].headers)
    {
      assert s.nodes[i] == NewChain(host, genesis).(engine := engines[i]);
    }
  }

  // ---- recovery -----------------------------------------------------------------------------

  lemma TraceOne(host: Host, s: System, events: seq<Event>, e: Event)
    requires s.nodes != []
    ensures Trace(host, s, events + [e]) == Next(host, Trace(host, s, events), e)
  {
    assert (events + [e])[..|events|] == events;
  }

  lemma TraceFive(host: Host, s: System, a: Event, b: Event, c: Event, d: Event, e: Event)
    requires s.nodes != []
    ensures Trace(host, s, [a, b, c, d, e])
            == Next(host, Next(host, Next(host, Next(host, Next(host, s, a), b), c), d), e)
  {
    hide Next, Trace;
    TraceNone(host, s);
    TraceOne(host, s, [], a);
    TraceOne(host, s, [a], b);
    TraceOne(host, s, [a, b], c);
    TraceOne(host, s, [a, b, c], d);
    TraceOne(host, s, [a, b, c, d], e);
    assert [] + [a] == [a] && [a] + [b] == [a, b] && [a, b] + [c] == [a, b, c];
    assert [a, b, c] + [d] == [a, b, c, d] && [a, b, c, d] + [e] == [a, b, c, d, e];
  }

  lemma TraceNone(host: Host, s: System)
    requires s.nodes != []
    ensures Trace(host, s, []) == s
  {}

  /** Ask a peer for its status, and let the three messages that follow arrive. */
  ghost function SyncSchedule(s: System, i: nat, j: nat): seq<Event>
    requires i < |s.nodes| && j < |s.nodes| && Stored(s.nodes[j])
    requires |s.nodes[i].headers| <= |s.nodes[j].headers|
  {
    var peer, l := s.nodes[j], s.nodes[i];
    [AskStatus(i, j),
     Deliver(Packet(i, j, GetStatus)),
     Deliver(Packet(j, i, Status(Height(peer)))),
     Deliver(Packet(i, j, GetBlocks(NextHeight(l), Height(peer)))),
     Deliver(Packet(j, i, Blocks(Chain(peer)[|l.headers|..])))]
  }

  /** One delivery that leaves every ledger alone and puts `out` on the network. */
  lemma Quiet(host: Host, s: System, p: Packet, out: Packet)
    requires s.nodes != [] && CanArrive(s, p)
    requires React(host, |s.nodes|, s.nodes[p.dst], p) == Reaction(s.nodes[p.dst], {out}, true)
    ensures Next(host, s, Deliver(p)) == s.(packets := s.packets + {out})
  {
    hide React;
  }

  /** What one node needs of another to catch up with it. */
  ghost predicate CanLearn(host: Host, s: System, i: nat, j: nat) {
    && i < |s.nodes| && j < |s.nodes| && i !in s.down && j !in s.down
    && Valid(host, s.nodes[j]) && Follows(host, s.nodes[i], Chain(s.nodes[j]))
    && Replayed(host, s.nodes[i]) && Replay(host, Chain(s.nodes[j])).Some?
    && |s.nodes[i].headers| < |s.nodes[j].headers| < TWO32
    && Sealed(host, s.nodes[i].engine, s.nodes[j].headers)
  }

  /** Node `i` ends at the chain of `j` and the state that chain replays to; nothing else moves. */
  ghost predicate Learned(host: Host, s: System, s': System, i: nat, j: nat)
    requires CanLearn(host, s, i, j)
  {
    && |s'.nodes| == |s.nodes| && s'.down == s.down
    && Stored(s'.nodes[i])
    && Chain(s'.nodes[i]) == Chain(s.nodes[j])
    && Some(s'.nodes[i].world) == Replay(host, Chain(s.nodes[j]))
    && forall k :: 0 <= k < |s.nodes| && k != i ==> s'.nodes[k] == s.nodes[k]
  }

  /** The four handlers of an exchange, one after the other. */
  lemma LearnReactions(host: Host, s: System, i: nat, j: nat)
    requires CanLearn(host, s, i, j)
    ensures var n, peer, l := |s.nodes|, s.nodes[j], s.nodes[i];
            var h, missing := Height(peer), Chain(peer)[|l.headers|..];
            var ask, r := GetBlocks(NextHeight(l), h), React(host, n, l, Packet(j, i, Blocks(missing)));
            && React(host, n, peer, Packet(i, j, GetStatus))
               == Reaction(peer, {Packet(j, i, Status(h))}, true)
            && React(host, n, l, Packet(j, i, Status(h))) == Reaction(l, {Packet(i, j, ask)}, true)
            && React(host, n, peer, Packet(i, j, ask))
               == Reaction(peer, {Packet(j, i, Blocks(missing))}, true)
            && r.up && r.sent == {}
            && Stored(r.l) && Chain(r.l) == Chain(peer)
            && Some(r.l.world) == Replay(host, Chain(peer))
  {
    var n, peer, l := |s.nodes|, s.nodes[j], s.nodes[i];
    var h, missing := Height(peer), Chain(peer)[|l.headers|..];
    ReactIs(host, n, peer, i, j, h, NextHeight(l), h, missing);
    ReactIs(host, n, l, j, i, h, NextHeight(l), h, missing);
    hide React;
    FollowsItself(host, peer);
    hide Valid, Follows, Replay, Replayed, AddAll, Chain, Stored, EngineAccepts, Height, NextHeight;
    hide OnStatus, OnGetBlocks;
    SyncExchange(host, i, j, l, peer, peer);
  }

  lemma FollowsItself(host: Host, l: Ledger)
    requires Valid(host, l)
    ensures Follows(host, l, Chain(l))
  {}

  lemma ReactIs(host: Host, peers: nat, l: Ledger, src: nat, dst: nat, h: U32, from: U32, to: U32,
                bs: seq<Block>)
    ensures React(host, peers, l, Packet(src, dst, GetStatus))
            == Reaction(l, {Packet(dst, src, Status(Height(l)))}, true)
    ensures React(host, peers, l, Packet(src, dst, Status(h))) == OnStatus(dst, src, l, h)
    ensures React(host, peers, l, Packet(src, dst, GetBlocks(from, to))) == OnGetBlocks(dst, src, l, from, to)
    ensures React(host, peers, l, Packet(src, dst, Blocks(bs))) == OnBlocks(host, l, bs)
  {}

  lemma ScheduleRuns(host: Host, s: System, i: nat, j: nat)
    requires CanLearn(host, s, i, j)
    ensures Learned(host, s, Trace(host, s, SyncSchedule(s, i, j)), i, j)
  {
    LearnReactions(host, s, i, j);
    hide Valid, Follows, Replay, Replayed, Chain, Stored, React, Sealed, Height, NextHeight;
    var peer, l := s.nodes[j], s.nodes[i];
    var h, missing := Height(peer), Chain(peer)[|l.headers|..];
    var ask := GetBlocks(NextHeight(l), h);
    var es := SyncSchedule(s, i, j);
    TraceFive(host, s, es[0], es[1], es[2], es[3], es[4]);
    hide Trace;
    var s1 := s.(packets := s.packets + {Packet(i, j, GetStatus)});
    var s2 := s1.(packets := s1.packets + {Packet(j, i, Status(h))});
    var s3 := s2.(packets := s2.packets + {Packet(i, j, ask)});
    var s4 := s3.(packets := s3.packets + {Packet(j, i, Blocks(missing))});
    assert Next(host, s, es[0]) == s1;
    Quiet(host, s1, Packet(i, j, GetStatus), Packet(j, i, Status(h)));
    Quiet(host, s2, Packet(j, i, Status(h)), Packet(i, j, ask));
    Quiet(host, s3, Packet(i, j, ask), Packet(j, i, Blocks(missing)));
    assert Trace(host, s, es) == Next(host, s4, es[4]);
  }

  /** From every state any run can reach in which the producer's chain replays: one request to any peer
      that is up and ahead, and four deliveries, bring any other node to that peer's chain and the state it
      replays to, if the node's engine accepts the peer's headers. A peer other than the producer is at
      that state itself. */
  lemma Recovery(host: Host, genesis: Block, engines: seq<Engine>, events: seq<Event>, i: nat, j: nat)
    requires genesis.header.height == 0 && 1 <= i < |engines| && j < |engines|
    ensures var s := Trace(host, Boot(host, genesis, engines), events);
            && Stored(s.nodes[0]) && Stored(s.nodes[i]) && Stored(s.nodes[j])
            && (Replay(host, Chain(s.nodes[0])).Some?
                && |s.nodes[i].headers| < |s.nodes[j].headers| < TWO32
                && (j == 0 ==> 0 !in s.down)
                && Sealed(host, engines[i], s.nodes[j].headers)
                ==> && CanLearn(host, s, i, j)
                    && Learned(host, s, Trace(host, s, SyncSchedule(s, i, j)), i, j)
                    && (j >= 1 ==> Replayed(host, s.nodes[j])))
  {
    hide Trace, Boot, Replay, Replayed, Stored, CanLearn, Learned, Sealed;
    ReachableCanLearn(host, genesis, engines, events, i, j);
    var s := Trace(host, Boot(host, genesis, engines), events);
    if CanLearn(host, s, i, j) {
      ScheduleRuns(host, s, i, j);
    }
  }

  lemma ReachableCanLearn(host: Host, genesis: Block, engines: seq<Engine>, events: seq<Event>, i: nat,
                          j: nat)
    requires genesis.header.height == 0 && 1 <= i < |engines| && j < |engines|
    ensures var s := Trace(host, Boot(host, genesis, engines), events);
            && Stored(s.nodes[0]) && Stored(s.nodes[i]) && Stored(s.nodes[j])
            && |s.nodes[i].headers| <= TWO32
            && (Replay(host, Chain(s.nodes[0])).Some?
                && |s.nodes[i].headers| < |s.nodes[j].headers| < TWO32
                && (j == 0 ==> 0 !in s.down)
                && Sealed(host, engines[i], s.nodes[j].headers)
                ==> CanLearn(host, s, i, j) && (j >= 1 ==> Replayed(host, s.nodes[j])))
  {
    hide Trace, Boot, Replay, Replayed, Linked, Indexed, Verified, Sealed;
    PrefixSafety(host, genesis, engines, events);
    TraceSealed(host, genesis, engines, events);
    var s := Trace(host, Boot(host, genesis, engines), events);
    assert Follows(host, s.nodes[i], Chain(s.nodes[0])) && Follows(host, s.nodes[j], Chain(s.nodes[0]));
    if Replay(host, Chain(s.nodes[0])).Some? && |s.nodes[i].headers| < |s.nodes[j].headers| < TWO32 {
      FollowersAgree(host, genesis, engines, events);
      PrefixReplays(host, s.nodes[j], Chain(s.nodes[0]));
      assert Follows(host, s.nodes[i], Chain(s.nodes[j]));
    }
  }

  lemma PrefixReplays(host: Host, l: Ledger, main: seq<Block>)
    requires Follows(host, l, main) && Replay(host, main).Some?
    ensures Replay(host, Chain(l)).Some?
  {
    hide Replay;
    ReplayPrefix(host, main, |Chain(l)|);
    assert main[..|Chain(l)|] == Chain(l);
  }

  /** Both conditions hold of the producer when every event was clean, and the node's engine asks no more
      than the producer's. */
  lemma ProducerServes(host: Host, genesis: Block, engines: seq<Engine>, events: seq<Event>, i: nat)
    requires genesis.header.height == 0 && i < |engines|
    ensures var s := Trace(host, Boot(host, genesis, engines), events);
            && Stored(s.nodes[0])
            && (CleanTrace(host, Boot(host, genesis, engines), events) ==>
                  && 0 !in s.down
                  && Replay(host, Chain(s.nodes[0])) == Some(s.nodes[0].world))
            && (engines[i].NoEngine? || engines[0].PoW? ==> Sealed(host, engines[i], s.nodes[0].headers))
  {
    hide Trace, Boot, Replay, Linked, Indexed, Verified, CleanTrace;
    PrefixSafety(host, genesis, engines, events);
    TraceSealed(host, genesis, engines, events);
    var s := Trace(host, Boot(host, genesis, engines), events);
    assert Sealed(host, engines[0], s.nodes[0].headers);
    if CleanTrace(host, Boot(host, genesis, engines), events) {
      TraceAgreed(host, genesis, engines, events, |events|);
      assert events[..|events|] == events;
    }
  }

  // ---- gossip ----------------------------------------------------------------------------------

  /** The next block of a chain that replays is accepted on arrival and passed on to every peer. */
  lemma GossipDelivers(host: Host, me: nat, peers: nat, src: nat, l: Ledger, main: seq<Block>)
    requires Follows(host, l, main) && Replayed(host, l)
    requires |l.headers| < |main| <= TWO32
    requires Replay(host, main).Some?
    requires Acceptable(host, l.engine, main)
    ensures var k := |l.headers|;
            var r := OnNewBlock(host, me, peers, src, l, main[k]);
            && Stored(r.l) && Chain(r.l) == main[..k + 1]
            && forall j :: 0 <= j < peers ==> Packet(me, j, NewBlock(main[k])) in r.sent
  {
    hide Validate, AddBlock, Linked, Indexed, Verified, Replay;
    var k := |l.headers|;
    NextBlockValidates(host, l, main);
    AddReplayedOnChain(host, l, main[k], main);
    AddBlockValid(host, l, main[k]);
    assert Chain(l) + [main[k]] == main[..k + 1];
  }

  /** A proposal the producer accepts is sent to every node; where it arrives at a node level with the
      producer, whose engine accepts it, that node follows to the same chain and its replayed state and sends
      it on to every node. */
  lemma GossipFollows(host: Host, s: System, b: Block, i: nat)
    requires Safe(host, s) && 0 !in s.down && 1 <= i < |s.nodes| && i !in s.down
    requires Chain(s.nodes[i]) == Chain(s.nodes[0]) && Replayed(host, s.nodes[i])
    requires AddBlock(host, s.nodes[0], b).verdict.Accepted?
    requires Replay(host, Chain(s.nodes[0]) + [b]).Some? && EngineAccepts(host, s.nodes[i].engine, b.header)
    ensures var s1 := Next(host, s, Produce(b));
            var s2 := Next(host, s1, Deliver(Packet(0, i, NewBlock(b))));
            && (forall j :: 0 <= j < |s.nodes| ==> Packet(0, j, NewBlock(b)) in s1.packets)
            && Stored(s2.nodes[i]) && Stored(s2.nodes[0])
            && Chain(s2.nodes[i]) == Chain(s2.nodes[0]) == Chain(s.nodes[0]) + [b]
            && Replayed(host, s2.nodes[i]) && i !in s2.down
            && (forall j :: 0 <= j < |s.nodes| ==> Packet(i, j, NewBlock(b)) in s2.packets)
  {
    hide Linked, Indexed, Verified, Replay, AddBlock, Replayed;
    var l, p := s.nodes[i], s.nodes[0];
    assert Follows(host, l, Chain(p));
    AddBlockValid(host, p, b);
    AddBlockValid(host, l, b);
    NextValid(host, p, l, b);
    AddReplayedOnto(host, l, b);
  }

  lemma NextValid(host: Host, p: Ledger, l: Ledger, b: Block)
    requires Valid(host, p) && Valid(host, l) && Chain(l) == Chain(p)
    requires AddBlock(host, p, b).verdict.Accepted? && EngineAccepts(host, l.engine, b.header)
    ensures Validate(host, l, b).None?
  {
    hide Linked, Indexed, Verified, Validate, ExecuteTxs, EngineAccepts;
    ValidateExact(host, p, b);
    ValidateExact(host, l, b);
    var n := |p.headers| - 1;
    assert Chain(l)[n].header == l.headers[n] && Chain(p)[n].header == p.headers[n];
  }

  lemma AddReplayedOnto(host: Host, l: Ledger, b: Block)
    requires Valid(host, l) && Replayed(host, l) && Validate(host, l, b).None?
    requires Replay(host, Chain(l) + [b]).Some?
    ensures AddBlock(host, l, b).verdict.Accepted?
    ensures Stored(AddBlock(host, l, b).l) && Replayed(host, AddBlock(host, l, b).l)
  {
    hide Linked, Indexed, Verified, Replay, AddBlock, Validate;
    AddBlockReplayed(host, l, b);
  }

  /** A block too far ahead arrives, the request it triggers, and the answer. */
  ghost function GossipSchedule(s: System, i: nat, j: nat, b: Block): seq<Event>
    requires i < |s.nodes| && j < |s.nodes| && Stored(s.nodes[j])
    requires |s.nodes[i].headers| < |s.nodes[j].headers| < TWO32
  {
    var n := |s.nodes[i].headers|;
    [Deliver(Packet(j, i, NewBlock(b))),
     Deliver(Packet(i, j, GetBlocks(n, 0))),
     Deliver(Packet(j, i, Blocks(Chain(s.nodes[j])[n..])))]
  }

  lemma GossipReactions(host: Host, s: System, i: nat, j: nat, b: Block)
    requires CanLearn(host, s, i, j) && b.header.height > |s.nodes[i].headers|
    ensures var n, peer, l := |s.nodes|, s.nodes[j], s.nodes[i];
            var k, missing := |l.headers|, Chain(peer)[|l.headers|..];
            var r := React(host, n, l, Packet(j, i, Blocks(missing)));
            && React(host, n, l, Packet(j, i, NewBlock(b))) == Reaction(l, {Packet(i, j, GetBlocks(k, 0))}, true)
            && React(host, n, peer, Packet(i, j, GetBlocks(k, 0)))
               == Reaction(peer, {Packet(j, i, Blocks(missing))}, true)
            && r.up && r.sent == {}
            && Stored(r.l) && Chain(r.l) == Chain(peer)
            && Some(r.l.world) == Replay(host, Chain(peer))
  {
    var n, peer, l := |s.nodes|, s.nodes[j], s.nodes[i];
    var k := |l.headers|;
    var missing := Chain(peer)[k..];
    ReactIs(host, n, peer, i, j, 0, k, 0, missing);
    ReactIs(host, n, l, j, i, 0, k, 0, missing);
    TooFarAhead(host, n, l, j, i, b);
    OpenAnswer(j, i, peer, k);
    MissingAccepted(host, l, peer);
    hide React, Valid, Follows, Replay, Replayed, AddAll, Sealed, Chain, Stored, OnGetBlocks;
  }

  lemma TooFarAhead(host: Host, peers: nat, l: Ledger, src: nat, dst: nat, b: Block)
    requires 1 <= |l.headers| < TWO32 && b.header.height > |l.headers|
    ensures React(host, peers, l, Packet(src, dst, NewBlock(b)))
            == Reaction(l, {Packet(dst, src, GetBlocks(|l.headers|, 0))}, true)
  {
    GossipOutOfStep(host, dst, peers, src, l, b);
    hide OnNewBlock;
  }

  lemma OpenAnswer(me: nat, src: nat, l: Ledger, from: U32)
    requires Stored(l) && from <= |l.headers| < TWO32
    ensures OnGetBlocks(me, src, l, from, 0)
            == Reaction(l, {Packet(me, src, Blocks(Chain(l)[from..]))}, true)
  {
    hide Answer, CollectEnds, Chain;
    AnswerIs(l, from, 0);
    AnswerExact(l, from, 0, 0);
    assert Chain(l)[from..|l.headers|] == Chain(l)[from..];
  }

  lemma MissingAccepted(host: Host, l: Ledger, peer: Ledger)
    requires Valid(host, peer) && Follows(host, l, Chain(peer))
    requires Replayed(host, l) && Replay(host, Chain(peer)).Some?
    requires |l.headers| < |peer.headers| < TWO32 && Sealed(host, l.engine, peer.headers)
    ensures var r := AddAll(host, l, Chain(peer)[|l.headers|..]);
            && r.verdict.Accepted? && Stored(r.l)
            && Chain(r.l) == Chain(peer) && Some(r.l.world) == Replay(host, Chain(peer))
  {
    hide Linked, Indexed, Verified, Replay, AddAll, EngineAccepts;
    CatchUp(host, l, peer, 0, |peer.headers|);
    assert Chain(peer)[|l.headers|..|peer.headers|] == Chain(peer)[|l.headers|..];
    assert Chain(peer)[..|peer.headers|] == Chain(peer);
  }

  /** From every reachable state in which the producer's chain replays: when a block too far ahead arrives
      from a peer that is up and ahead, the request it triggers and the answer bring the node to that peer's
      chain and the state it replays to. */
  lemma GossipRecovery(host: Host, genesis: Block, engines: seq<Engine>, events: seq<Event>, i: nat, j: nat,
                       b: Block)
    requires genesis.header.height == 0 && 1 <= i < |engines| && j < |engines|
    ensures var s := Trace(host, Boot(host, genesis, engines), events);
            && Stored(s.nodes[0]) && Stored(s.nodes[j])
            && (Replay(host, Chain(s.nodes[0])).Some?
                && |s.nodes[i].headers| < |s.nodes[j].headers| < TWO32
                && (j == 0 ==> 0 !in s.down)
                && Sealed(host, engines[i], s.nodes[j].headers)
                && Packet(j, i, NewBlock(b)) in s.packets && b.header.height > |s.nodes[i].headers|
                ==> && CanLearn(host, s, i, j)
                    && Learned(host, s, Trace(host, s, GossipSchedule(s, i, j, b)), i, j))
  {
    hide Trace, Boot, Replay, Replayed, Stored, CanLearn, Learned, Sealed;
    ReachableCanLearn(host, genesis, engines, events, i, j);
    var s := Trace(host, Boot(host, genesis, engines), events);
    if && CanLearn(host, s, i, j) && Packet(j, i, NewBlock(b)) in s.packets
       && b.header.height > |s.nodes[i].headers|
    {
      GossipRuns(host, s, i, j, b);
    }
  }

  lemma GossipRuns(host: Host, s: System, i: nat, j: nat, b: Block)
    requires CanLearn(host, s, i, j)
    requires Packet(j, i, NewBlock(b)) in s.packets && b.header.height > |s.nodes[i].headers|
    ensures Stored(s.nodes[j])
    ensures Learned(host, s, Trace(host, s, GossipSchedule(s, i, j, b)), i, j)
  {
    GossipReactions(host, s, i, j, b);
    hide Valid, Follows, Replay, Replayed, Chain, React, Sealed;
    var n, missing := |s.nodes[i].headers|, Chain(s.nodes[j])[|s.nodes[i].headers|..];
    var p, q := Packet(j, i, NewBlock(b)), Packet(i, j, GetBlocks(n, 0));
    ThreeSteps(host, s, p, q, Packet(j, i, Blocks(missing)));
    hide Trace, Stored;
  }

  /** Two deliveries that leave every ledger alone, each sending on what arrives next. */
  lemma ThreeSteps(host: Host, s: System, p: Packet, q: Packet, r: Packet)
    requires s.nodes != [] && CanArrive(s, p)
    requires q.dst < |s.nodes| && q.dst !in s.down
    requires React(host, |s.nodes|, s.nodes[p.dst], p) == Reaction(s.nodes[p.dst], {q}, true)
    requires React(host, |s.nodes|, s.nodes[q.dst], q) == Reaction(s.nodes[q.dst], {r}, true)
    ensures Trace(host, s, [Deliver(p), Deliver(q), Deliver(r)])
            == Next(host, s.(packets := s.packets + {q} + {r}), Deliver(r))
  {
    hide React;
    TraceThree(host, s, Deliver(p), Deliver(q), Deliver(r));
    hide Trace;
    Quiet(host, s, p, q);
    Quiet(host, s.(packets := s.packets + {q}), q, r);
  }

  lemma TraceThree(host: Host, s: System, a: Event, b: Event, c: Event)
    requires s.nodes != []
    ensures Trace(host, s, [a, b, c]) == Next(host, Next(host, Next(host, s, a), b), c)
  {
    hide Next, Trace;
    TraceNone(host, s);
    TraceOne(host, s, [], a);
    TraceOne(host, s, [a], b);
    TraceOne(host, s, [a, b], c);
    assert [] + [a] == [a] && [a] + [b] == [a, b] && [a, b] + [c] == [a, b, c];
  }

  /** What a node sends on receiving a block, in every case: an accepted block goes to every peer, one too
      far ahead makes it ask its sender, and nothing else is answered. */
  lemma GossipExact(host: Host, me: nat, peers: nat, src: nat, l: Ledger, b: Block)
    requires 1 <= |l.headers| < TWO32
    ensures var r, v := OnNewBlock(host, me, peers, src, l, b), AddBlock(host, l, b).verdict;
            && (v.Accepted? ==> r.sent == set k | 0 <= k < peers :: Packet(me, k, NewBlock(b)))
            && (b.header.height > |l.headers| ==> r.sent == {Packet(me, src, GetBlocks(|l.headers|, 0))})
            && (!v.Accepted? && b.header.height <= |l.headers| ==> r.sent == {})
  {
    hide ExecuteTxs, Append;
    ValidateReasons(host, l, b);
    ExecutionErrors(host, l.world, b.transactions);
    hide Validate;
  }

  /** A block further ahead changes nothing and is answered by asking its sender for all that is
      missing; an old one changes nothing and is dropped. */
  lemma GossipOutOfStep(host: Host, me: nat, peers: nat, src: nat, l: Ledger, b: Block)
    requires 1 <= |l.headers| < TWO32
    requires b.header.height != |l.headers|
    ensures var sent := if b.header.height > |l.headers|
                        then {Packet(me, src, GetBlocks(|l.headers|, 0))} else {};
            OnNewBlock(host, me, peers, src, l, b) == Reaction(l, sent, true)
  {}

  // ---- how states part ------------------------------------------------------------------------------

  /** A transaction that only counts its sender's nonce, then a payment one above what the sender has. */
  function HalfBad(host: Host, wallet: Wallet, w: World): seq<Transaction>
    requires Balance(w, host.addressOf(wallet.publicKey)) < TWO64 - 1
  {
    var a := host.addressOf(wallet.publicKey);
    [SignedTx(wallet, [], a, 0, 0), SignedTx(wallet, [], a, Balance(w, a) + 1, 0)]
  }

  lemma HalfBadIsNotClean(host: Host, wallet: Wallet, w: World)
    requires Supply(w) < TWO64 && Balance(w, host.addressOf(wallet.publicKey)) < TWO64 - 1
    ensures var txs := HalfBad(host, wallet, w);
            && |txs| == 2 && txs[0].data == txs[1].data == []
            && Covered(host, w, txs, 0) && !Covered(host, w, txs, 1)
  {
    var a, txs := host.addressOf(wallet.publicKey), HalfBad(host, wallet, w);
    assert txs[..0] == [] && txs[..1] == [txs[0]];
    OneTx(host, txs[0]);
  }

  lemma BalanceBelow(host: Host, l: Ledger, a: Address)
    requires Valid(host, l) && Replayed(host, l)
    ensures Supply(l.world) < TWO64 && Balance(l.world, a) < TWO64 - 1
  {
    hide Replay, Linked, Indexed, Verified, Accounted, Supply;
    ReplayAccounted(host, Chain(l));
    SmallSupply(host, HeadersOf(Chain(l)), l.world, AllTxs(Chain(l)[1..]), a);
  }

  lemma SmallSupply(host: Host, headers: seq<Header>, w: World, txs: seq<Transaction>, a: Address)
    requires Accounted(host, headers, w, txs) && |headers| <= TWO32
    ensures Supply(w) < TWO64 && Balance(w, a) < TWO64 - 1
  {
    BalancesBounded(w, a, a);
  }

  /** At any moment of a run that was clean so far, an honest wallet can have the producer propose a block
      that is refused halfway: every node at the producer's height then has the same headers and a
      different world state. */
  lemma StatesCanPart(host: Host, wallet: Wallet, genesis: Block, engines: seq<Engine>, events: seq<Event>,
                      i: nat)
    requires genesis.header.height == 0 && 1 <= i < |engines|
    requires Honest(host, wallet)
    requires CleanTrace(host, Boot(host, genesis, engines), events)
    ensures var s := Trace(host, Boot(host, genesis, engines), events);
            Height(s.nodes[i]) == Height(s.nodes[0]) && |s.nodes[0].headers| < TWO32 ==>
              exists b :: var s' := Next(host, s, Produce(b));
                          && s'.nodes[i] == s.nodes[i]
                          && s'.nodes[0].headers == s'.nodes[i].headers
                          && s'.nodes[0].world != s'.nodes[i].world
  {
    hide CleanTrace, Trace, Boot, Replay, Linked, Indexed, Verified, Honest;
    TraceAgreed(host, genesis, engines, events, |events|);
    assert events[..|events|] == events;
    var s := Trace(host, Boot(host, genesis, engines), events);
    if Height(s.nodes[i]) == Height(s.nodes[0]) && |s.nodes[0].headers| < TWO32 {
      SameHeight(host, s, i, 0);
      StateAgreement(host, genesis, engines, events, i, 0);
      var b := Spoiler(host, wallet, s.nodes[0]);
      assert Next(host, s, Produce(b)).nodes[0] == AddBlock(host, s.nodes[0], b).l;
      assert Next(host, s, Produce(b)).nodes[i] == s.nodes[i];
    }
  }

  lemma Spoiler(host: Host, wallet: Wallet, l: Ledger) returns (b: Block)
    requires Valid(host, l) && Replayed(host, l) && |l.headers| < TWO32
    requires Honest(host, wallet)
    ensures var r := AddBlock(host, l, b);
            r.verdict.Rejected? && r.l.headers == l.headers && r.l.world != l.world
  {
    hide Linked, Indexed, Verified, Replay, Validate, ExecuteTxs, Supply, Covered, Moves, HalfBad;
    BalanceBelow(host, l, host.addressOf(wallet.publicKey));
    var txs := HalfBad(host, wallet, l.world);
    HalfBadIsNotClean(host, wallet, l.world);
    HalfBadVerifies(host, wallet, l.world);
    SignedBlockValidates(host, l, wallet, txs);
    b := SignedBlock(host, wallet, l.headers[|l.headers| - 1], txs);
    hide SignedBlock;
    PaymentBlockExact(host, l, b);
    AddBlockHeaders(host, l, b);
  }

  lemma HalfBadVerifies(host: Host, wallet: Wallet, w: World)
    requires Balance(w, host.addressOf(wallet.publicKey)) < TWO64 - 1
    requires Honest(host, wallet)
    ensures forall tx <- HalfBad(host, wallet, w) :: SignedBySender(host, tx)
  {}
}
