/** Block gossip and sync: nodes as step machines over a network that may reorder, repeat or lose
    whatever has been sent. Node 0 is the one that produces blocks. */
module Network {
  import opened Basics
  import opened Types
  import opened Accounts
  import opened Ledger
  import opened LedgerRuns
  import opened LedgerHistory

  datatype Message =
    | NewBlock(block: Block)
    | GetBlocks(from: U32, to: U32)
    | Blocks(blocks: seq<Block>)
    | GetStatus
    | Status(height: U32)

  datatype Packet = Packet(src: nat, dst: nat, msg: Message)

  /** A handler's effect: the node's new ledger, what it sends, and whether it came back. Messages are
      handled one at a time, so a handler that does not come back is the node's last. */
  datatype Reaction = Reaction(l: Ledger, sent: set<Packet>, up: bool)

  // ---- handlers -----------------------------------------------------------------------

  function Broadcast(me: nat, peers: nat, msg: Message): set<Packet> {
    set j | 0 <= j < peers :: Packet(me, j, msg)
  }

  function NextHeight(l: Ledger): U32 { (Height(l) + 1) % TWO32 }

  /** Both wordings of this error carry the text that triggers a sync. */
  predicate SaysTooHigh(v: Verdict) {
    v == Rejected(Invalid(TooHigh)) || v == Rejected(Invalid(NoSuchHeader))
  }

  ghost function OnNewBlock(host: Host, me: nat, peers: nat, src: nat, l: Ledger, b: Block): Reaction {
    var r := AddBlock(host, l, b);
    var sent := if r.verdict.Accepted? then Broadcast(me, peers, NewBlock(b))
                else if SaysTooHigh(r.verdict) then {Packet(me, src, GetBlocks(NextHeight(r.l), 0))}
                else {};
    Reaction(r.l, sent, CameBack(r.verdict))
  }

  function OnStatus(me: nat, src: nat, l: Ledger, height: U32): Reaction {
    var sent := if height > Height(l) then {Packet(me, src, GetBlocks(NextHeight(l), height))} else {};
    Reaction(l, sent, true)
  }

  function LastWanted(l: Ledger, to: U32): (last: U32)
    ensures last <= Height(l)
  {
    if to == 0 || to > Height(l) then Height(l) else to
  }

  /** Stored blocks from `i` through `to`; `None` if one is missing. */
  function Range(st: Store, i: U32, to: U32): Option<seq<Block>>
    requires to < TWO32 - 1
    decreases TWO32 - i
  {
    if i > to then Some([])
    else if i !in st.blocks then None
    else
      match Range(st, i + 1, to)
      case None => None
      case Some(rest) => Some([st.blocks[i]] + rest)
  }

  datatype Collecting =
    | Collecting(blocks: seq<Block>)
    | Collected(blocks: seq<Block>)
    | Missing

  function Prepend(blocks: seq<Block>, c: Collecting): Collecting {
    match c
    case Collecting(rest) => Collecting(blocks + rest)
    case Collected(rest) => Collected(blocks + rest)
    case Missing => Missing
  }

  /** `n` turns of the answering loop from height `i`; its uint32 counter wraps. */
  function CollectFor(st: Store, i: U32, to: U32, n: nat): Collecting
    decreases n
  {
    if n == 0 then Collecting([])
    else if i > to then Collected([])
    else if i !in st.blocks then Missing
    else Prepend([st.blocks[i]], CollectFor(st, (i + 1) % TWO32, to, n - 1))
  }

  ghost predicate CollectEnds(st: Store, i: U32, to: U32) {
    exists n: nat :: !CollectFor(st, i, to, n).Collecting?
  }

  /** No answer if a block is missing, nor if the loop's counter can never pass the end. */
  function Answer(l: Ledger, from: U32, to: U32): Option<Message> {
    var last := LastWanted(l, to);
    if last == TWO32 - 1 then None
    else
      match Range(l.store, from, last)
      case None => None
      case Some(bs) => Some(Blocks(bs))
  }

  ghost function OnGetBlocks(me: nat, src: nat, l: Ledger, from: U32, to: U32): Reaction {
    var sent := match Answer(l, from, to)
                case None => {}
                case Some(msg) => {Packet(me, src, msg)};
    Reaction(l, sent, CollectEnds(l.store, from, LastWanted(l, to)))
  }

  /** Blocks are added in order until one is not accepted. */
  ghost function AddAll(host: Host, l: Ledger, bs: seq<Block>): Result
    decreases |bs|
  {
    if bs == [] then Result(l, Accepted)
    else
      var r := AddBlock(host, l, bs[0]);
      if r.verdict.Accepted? then AddAll(host, r.l, bs[1..]) else r
  }

  function AddAllFor(host: Host, l: Ledger, bs: seq<Block>, turns: nat): Result
    decreases |bs|
  {
    if bs == [] then Result(l, Accepted)
    else
      var r := AddBlockFor(host, l, bs[0], turns);
      if r.verdict.Accepted? then AddAllFor(host, r.l, bs[1..], turns) else r
  }

  ghost function OnBlocks(host: Host, l: Ledger, bs: seq<Block>): Reaction {
    var r := AddAll(host, l, bs);
    Reaction(r.l, {}, CameBack(r.verdict))
  }

  ghost function React(host: Host, peers: nat, l: Ledger, p: Packet): Reaction {
    match p.msg
    case NewBlock(b) => OnNewBlock(host, p.dst, peers, p.src, l, b)
    case GetBlocks(from, to) => OnGetBlocks(p.dst, p.src, l, from, to)
    case Blocks(bs) => OnBlocks(host, l, bs)
    case GetStatus => Reaction(l, {Packet(p.dst, p.src, Status(Height(l)))}, true)
    case Status(h) => OnStatus(p.dst, p.src, l, h)
  }

  // ---- the system --------------------------------------------------------------------------

  /** `packets` is everything ever sent; any of it may arrive at any time, any number of times. `down`
      are the nodes that did not come back from a call: they produce and answer nothing any more. */
  datatype System = System(nodes: seq<Ledger>, packets: set<Packet>, down: set<nat>)

  datatype Event =
    | Produce(block: Block)        // node 0 proposes some block, whatever it contains
    | Deliver(packet: Packet)
    | AskStatus(asker: nat, asked: nat)

  predicate CanArrive(s: System, p: Packet) {
    p in s.packets && p.dst < |s.nodes| && p.dst !in s.down
  }

  function Down(s: System, i: nat, up: bool): set<nat> { if up then s.down else s.down + {i} }

  ghost function Next(host: Host, s: System, e: Event): (s': System)
    requires s.nodes != []
    ensures |s'.nodes| == |s.nodes|
  {
    match e
    case Produce(b) =>
      if 0 in s.down then s
      else
        var r := AddBlock(host, s.nodes[0], b);
        System(s.nodes[0 := r.l],
               s.packets + (if r.verdict.Accepted? then Broadcast(0, |s.nodes|, NewBlock(b)) else {}),
               Down(s, 0, CameBack(r.verdict)))
    case Deliver(p) =>
      if CanArrive(s, p) then
        var r := React(host, |s.nodes|, s.nodes[p.dst], p);
        System(s.nodes[p.dst := r.l], s.packets + r.sent, Down(s, p.dst, r.up))
      else s
    case AskStatus(i, j) =>
      s.(packets := s.packets + {Packet(i, j, GetStatus)})
  }

  ghost function Trace(host: Host, s: System, events: seq<Event>): (s': System)
    requires s.nodes != []
    ensures |s'.nodes| == |s.nodes|
  {
    if events == [] then s
    else Next(host, Trace(host, s, events[..|events| - 1]), events[|events| - 1])
  }

  /** All nodes open the same genesis on empty stores, each with its own engine. */
  function Boot(host: Host, genesis: Block, engines: seq<Engine>): (s: System)
    ensures |s.nodes| == |engines|
  {
    System(seq(|engines|, i requires 0 <= i < |engines| =>
             NewChain(host, genesis).(engine := engines[i])), {}, {})
  }

  // ---- safety -----------------------------------------------------------------------------------

  predicate OnChain(b: Block, chain: seq<Block>) {
    b.header.height < |chain| && chain[b.header.height] == b
  }

  predicate Carried(msg: Message, chain: seq<Block>) {
    match msg
    case NewBlock(b) => OnChain(b, chain)
    case Blocks(bs) => forall b <- bs :: OnChain(b, chain)
    case _ => true
  }

  /** A node's ledger is sound and its chain is a prefix of `main`. */
  ghost predicate Follows(host: Host, l: Ledger, main: seq<Block>) {
    Valid(host, l) && Chain(l) <= main
  }

  ghost predicate Safe(host: Host, s: System) {
    && s.nodes != []
    && Valid(host, s.nodes[0])
    && var main := Chain(s.nodes[0]);
       && (forall i :: 0 <= i < |s.nodes| ==> Follows(host, s.nodes[i], main))
       && (forall p <- s.packets :: Carried(p.msg, main))
  }

  lemma AddOnChain(host: Host, l: Ledger, b: Block, main: seq<Block>)
    requires Follows(host, l, main)
    requires OnChain(b, main)
    ensures Follows(host, AddBlock(host, l, b).l, main)
    ensures Chain(l) <= Chain(AddBlock(host, l, b).l)
  {
    hide Validate, Linked, Indexed, Verified, ExecuteTxs;
    AddBlockValid(host, l, b);
    ValidateExact(host, l, b);
  }

  lemma {:induction false} AddAllOnChain(host: Host, l: Ledger, bs: seq<Block>, main: seq<Block>)
    requires Follows(host, l, main)
    requires forall b <- bs :: OnChain(b, main)
    ensures Follows(host, AddAll(host, l, bs).l, main)
    ensures Chain(l) <= Chain(AddAll(host, l, bs).l)
    decreases |bs|
  {
    hide AddBlock, Linked, Indexed, Verified;
    if bs == [] {
    } else {
      AddOnChain(host, l, bs[0], main);
      var r := AddBlock(host, l, bs[0]);
      if r.verdict.Accepted? {
        AddAllOnChain(host, r.l, bs[1..], main);
      }
    }
  }

  lemma RangeStep(l: Ledger, i: U32, to: U32)
    requires Stored(l) && i <= to < |l.headers|
    ensures Chain(l)[i..to + 1] == [l.store.blocks[i]] + Chain(l)[i + 1..to + 1]
  {}

  lemma {:induction false} RangeIs(l: Ledger, i: U32, to: U32)
    requires Stored(l) && to < |l.headers|
    requires to < TWO32 - 1
    ensures Range(l.store, i, to)
            == Some(if i <= to + 1 then Chain(l)[i..to + 1] else [])
    decreases TWO32 - i
  {
    hide Find, LastBlock, LastTx;
    if i > to {
    } else {
      RangeIs(l, i + 1, to);
      RangeStep(l, i, to);
    }
  }

  // ---- the answering loop ----------------------------------------------------------------

  /** Below the last height the loop ends, with what `Range` says. */
  lemma {:induction false} CollectIsRange(st: Store, i: U32, to: U32, n: nat)
    requires to < TWO32 - 1
    ensures match CollectFor(st, i, to, n)
            case Collecting(_) => n < TWO32 - i
            case Collected(bs) => Range(st, i, to) == Some(bs)
            case Missing => Range(st, i, to).None?
    decreases n
  {
    if n == 0 || i > to || i !in st.blocks {
    } else {
      CollectIsRange(st, i + 1, to, n - 1);
    }
  }

  /** Turns from height `i` to height `h`, wrapping once if need be. */
  function Distance(i: U32, h: U32): nat { if i <= h then h - i else TWO32 - i + h }

  /** Up to the last height the counter wraps; the loop goes on until it finds a free height. */
  lemma {:induction false} CollectWraps(st: Store, i: U32, h: U32, n: nat)
    requires h !in st.blocks
    ensures match CollectFor(st, i, TWO32 - 1, n)
            case Collecting(_) => n <= Distance(i, h)
            case Collected(_) => false
            case Missing => true
    decreases n
  {
    if n == 0 || i !in st.blocks {
    } else {
      var next: U32 := if i == TWO32 - 1 then 0 else i + 1;
      assert (i + 1) % TWO32 == next;
      CollectWraps(st, next, h, n - 1);
    }
  }

  lemma {:induction false} CollectForever(st: Store, i: U32, n: nat)
    requires !FreeFrom(st, 0)
    ensures CollectFor(st, i, TWO32 - 1, n).Collecting?
    decreases n
  {
    if n == 0 {
    } else {
      CollectForever(st, (i + 1) % TWO32, n - 1);
    }
  }

  /** The answering loop ends exactly when its end is below the last height or some height is free. */
  lemma CollectEndsExact(st: Store, i: U32, to: U32)
    ensures CollectEnds(st, i, to) <==> to < TWO32 - 1 || FreeFrom(st, 0)
  {
    hide CollectFor, Range;
    if to < TWO32 - 1 {
      CollectIsRange(st, i, to, TWO32 - i);
    } else if FreeFrom(st, 0) {
      var h: U32 :| h !in st.blocks;
      var n := Distance(i, h) + 1;
      CollectWraps(st, i, h, n);
      assert !CollectFor(st, i, to, n).Collecting?;
    } else {
      forall n: nat ensures CollectFor(st, i, to, n).Collecting? {
        CollectForever(st, i, n);
      }
    }
  }

  /** On a chain, a request is worked off exactly when the last block it wants is not at the top
      height; once the loop has ended, the answer is the specified one. */
  lemma AnswerExact(l: Ledger, from: U32, to: U32, n: nat)
    requires Stored(l)
    ensures CollectEnds(l.store, from, LastWanted(l, to)) <==> LastWanted(l, to) < TWO32 - 1
    ensures !CollectFor(l.store, from, LastWanted(l, to), n).Collecting? ==>
              Answer(l, from, to) == match CollectFor(l.store, from, LastWanted(l, to), n)
                                     case Collected(bs) => Some(Blocks(bs))
                                     case _ => None
  {
    hide CollectFor, CollectEnds, Range;
    CollectEndsExact(l.store, from, LastWanted(l, to));
    FreeAbove(l);
    AnswerWhenEnded(l, from, to, n);
  }

  /** A request is answered with the chain from the height asked for: up to the height asked for, or to
      the tip when that is zero or not below it. */
  lemma AnswerIs(l: Ledger, from: U32, to: U32)
    requires Stored(l) && |l.headers| < TWO32
    ensures var end := if to == 0 || to >= |l.headers| then |l.headers| else to + 1;
            Answer(l, from, to) == Some(Blocks(if from <= end then Chain(l)[from..end] else []))
  {
    hide Range;
    RangeIs(l, from, LastWanted(l, to));
  }

  /** A status is answered exactly when it is higher, with a request for all above the own chain. */
  lemma StatusExact(me: nat, src: nat, l: Ledger, height: U32)
    requires 1 <= |l.headers| < TWO32
    ensures OnStatus(me, src, l, height).sent
            == if height < |l.headers| then {} else {Packet(me, src, GetBlocks(|l.headers|, height))}
  {}

  /** A batch is worked off up to the first block that is not accepted, and ends as that one does. */
  lemma {:induction false} BatchExact(host: Host, l: Ledger, bs: seq<Block>, k: nat)
    requires k < |bs| && AddAll(host, l, bs[..k]).verdict.Accepted?
    ensures var r := AddBlock(host, AddAll(host, l, bs[..k]).l, bs[k]);
            !r.verdict.Accepted? ==> AddAll(host, l, bs) == r
    decreases k
  {
    hide AddBlock;
    if k == 0 {
      assert bs[..0] == [];
    } else {
      assert bs[..k][1..] == bs[1..][..k - 1];
      BatchExact(host, AddBlock(host, l, bs[0]).l, bs[1..], k - 1);
    }
  }

  lemma AnswerWhenEnded(l: Ledger, from: U32, to: U32, n: nat)
    ensures match CollectFor(l.store, from, LastWanted(l, to), n)
            case Collecting(_) => true
            case Collected(bs) => Answer(l, from, to) == Some(Blocks(bs))
            case Missing => Answer(l, from, to).None?
  {
    hide CollectFor, Range;
    var last := LastWanted(l, to);
    if last < TWO32 - 1 {
      CollectIsRange(l.store, from, last, n);
    } else if FreeFrom(l.store, 0) {
      var h: U32 :| h !in l.store.blocks;
      CollectWraps(l.store, from, h, n);
    } else {
      CollectForever(l.store, from, n);
    }
  }

  /** Whatever a node answers or forwards is on the producer's chain. */
  lemma ReactSafe(host: Host, peers: nat, l: Ledger, p: Packet, main: seq<Block>)
    requires Follows(host, l, main)
    requires Carried(p.msg, main)
    ensures var r := React(host, peers, l, p);
            && Follows(host, r.l, main)
            && Chain(l) <= Chain(r.l)
            && (forall q <- r.sent :: Carried(q.msg, main))
  {
    hide AddBlock, AddAll, Linked, Indexed, Verified, Range;
    match p.msg
    case NewBlock(b) => AddOnChain(host, l, b, main);
    case Blocks(bs) => AddAllOnChain(host, l, bs, main);
    case GetBlocks(from, to) =>
      var last := LastWanted(l, to);
      if last < TWO32 - 1 {
        RangeIs(l, from, last);
        AnswerOnChain(l, from, last, main);
      }
    case _ =>
  }

  lemma AnswerOnChain(l: Ledger, from: nat, last: nat, main: seq<Block>)
    requires Stored(l) && Chain(l) <= main && last < |l.headers|
    ensures from <= last + 1 ==> forall b <- Chain(l)[from..last + 1] :: OnChain(b, main)
  {}

  lemma SafeGrows(host: Host, s: System, i: nat, l: Ledger, sent: set<Packet>, up: bool,
                  main: seq<Block>)
    requires Safe(host, s) && i < |s.nodes|
    requires Chain(s.nodes[0]) <= main
    requires Follows(host, l, main) && Chain(s.nodes[i]) <= Chain(l)
    requires forall q <- sent :: Carried(q.msg, main)
    requires if i == 0 then Chain(l) == main else main == Chain(s.nodes[0])
    ensures Safe(host, System(s.nodes[i := l], s.packets + sent, Down(s, i, up)))
  {
    hide Linked, Indexed, Verified;
    forall j | 0 <= j < |s.nodes| && j != i ensures Follows(host, s.nodes[j], main) {
      assert Follows(host, s.nodes[j], Chain(s.nodes[0]));
    }
    forall p <- s.packets ensures Carried(p.msg, main) {
      assert Carried(p.msg, Chain(s.nodes[0]));
    }
  }

  lemma NextSafe(host: Host, s: System, e: Event)
    requires Safe(host, s)
    ensures Safe(host, Next(host, s, e))
    ensures Chain(s.nodes[0]) <= Chain(Next(host, s, e).nodes[0])
  {
    hide AddBlock, React, Linked, Indexed, Verified;
    var main := Chain(s.nodes[0]);
    match e
    case Produce(b) =>
      if 0 !in s.down {
        AddBlockValid(host, s.nodes[0], b);
        var r := AddBlock(host, s.nodes[0], b);
        var sent := if r.verdict.Accepted? then Broadcast(0, |s.nodes|, NewBlock(b)) else {};
        assert Chain(r.l)[..|main|] == main;
        if r.verdict.Accepted? {
          assert Chain(r.l)[|main|] == b;
          assert OnChain(b, Chain(r.l));
        }
        SafeGrows(host, s, 0, r.l, sent, CameBack(r.verdict), Chain(r.l));
      }
    case Deliver(p) =>
      if CanArrive(s, p) {
        ReactSafe(host, |s.nodes|, s.nodes[p.dst], p, main);
        var r := React(host, |s.nodes|, s.nodes[p.dst], p);
        SafeGrows(host, s, p.dst, r.l, r.sent, r.up, main);
      }
    case AskStatus(i, j) =>
      SafeGrows(host, s, 0, s.nodes[0], {Packet(i, j, GetStatus)}, true, main);
  }

  lemma BootSafe(host: Host, genesis: Block, engines: seq<Engine>)
    requires genesis.header.height == 0 && engines != []
    ensures Safe(host, Boot(host, genesis, engines))
  {
    hide NewChain, Linked, Indexed, Verified;
    NewChainValid(host, genesis);
    forall i | 0 <= i < |engines|
      ensures var l := Boot(host, genesis, engines).nodes[i];
              Valid(host, l) && Chain(l) == [genesis]
    {
      EngineIrrelevant(host, NewChain(host, genesis), engines[i]);
    }
  }

  /** With one producer, at every moment of every run, every node's chain is a prefix of the
      producer's, however messages are reordered, repeated or lost. */
  lemma {:induction false} PrefixSafety(host: Host, genesis: Block, engines: seq<Engine>,
                                        events: seq<Event>)
    requires genesis.header.height == 0 && engines != []
    ensures var s := Trace(host, Boot(host, genesis, engines), events);
            && Safe(host, s)
            && (forall i :: 0 <= i < |s.nodes| ==>
                  Stored(s.nodes[i]) && Chain(s.nodes[i]) <= Chain(s.nodes[0]))
  {
    hide Boot, Next, Linked, Indexed, Verified;
    BootSafe(host, genesis, engines);
    var s0 := Boot(host, genesis, engines);
    if events == [] {
    } else {
      var n := |events| - 1;
      PrefixSafety(host, genesis, engines, events[..n]);
      NextSafe(host, Trace(host, s0, events[..n]), events[n]);
    }
  }

  // ---- agreement on state ------------------------------------------------------------------------

  lemma {:induction false} ReplayPrefix(host: Host, chain: seq<Block>, n: nat)
    requires n <= |chain|
    requires Replay(host, chain).Some?
    ensures Replay(host, chain[..n]).Some?
    decreases |chain|
  {
    if n < |chain| {
      if |chain| > 1 {
        ReplayPrefix(host, chain[..|chain| - 1], n);
        assert chain[..|chain| - 1][..n] == chain[..n];
      }
    } else {
      assert chain[..n] == chain;
    }
  }

  /** From a replayed state, a block of a chain that replays is never stopped halfway. */
  lemma AddReplayedOnChain(host: Host, l: Ledger, b: Block, main: seq<Block>)
    requires Follows(host, l, main) && Replayed(host, l)
    requires OnChain(b, main) && Replay(host, main).Some?
    ensures var r := AddBlock(host, l, b);
            && CameBack(r.verdict)
            && Stored(r.l) && Replayed(host, r.l)
            && (Validate(host, l, b).None? ==> r.verdict.Accepted?)
  {
    hide Linked, Indexed, Verified, ExecuteTxs, Replay, Append;
    AddBlockReplayed(host, l, b);
    ValidateExact(host, l, b);
    if Validate(host, l, b).None? {
      var n := |l.headers|;
      ReplayPrefix(host, main, n + 1);
      assert main[..n + 1] == Chain(l) + [b];
    }
  }

  lemma {:induction false} AddAllReplayed(host: Host, l: Ledger, bs: seq<Block>, main: seq<Block>)
    requires Follows(host, l, main) && Replayed(host, l)
    requires (forall b <- bs :: OnChain(b, main)) && Replay(host, main).Some?
    ensures var r := AddAll(host, l, bs);
            CameBack(r.verdict) && Stored(r.l) && Replayed(host, r.l)
    decreases |bs|
  {
    hide AddBlock, Linked, Indexed, Verified, Replay, CameBack;
    if bs == [] {
      AcceptedCameBack();
    } else {
      AddOnChain(host, l, bs[0], main);
      AddReplayedOnChain(host, l, bs[0], main);
      var r := AddBlock(host, l, bs[0]);
      if r.verdict.Accepted? {
        AddAllReplayed(host, r.l, bs[1..], main);
      }
    }
  }

  lemma AcceptedCameBack()
    ensures CameBack(Accepted)
  {}

  /** The one handler that may not come back when blocks come from a chain that replays is the answering
      loop on a full chain. */
  predicate Answerable(l: Ledger, msg: Message) {
    msg.GetBlocks? ==> LastWanted(l, msg.to) < TWO32 - 1
  }

  lemma ReactReplayed(host: Host, peers: nat, l: Ledger, p: Packet, main: seq<Block>)
    requires Follows(host, l, main) && Replayed(host, l)
    requires Carried(p.msg, main) && Replay(host, main).Some?
    ensures var r := React(host, peers, l, p);
            && Stored(r.l) && Replayed(host, r.l)
            && (r.up <==> Answerable(l, p.msg))
            && (!r.up ==> |r.l.headers| == TWO32)
  {
    hide AddBlock, AddAll, Linked, Indexed, Verified, Range, Replay, CollectEnds;
    match p.msg
    case NewBlock(b) => AddReplayedOnChain(host, l, b, main);
    case Blocks(bs) => AddAllReplayed(host, l, bs, main);
    case GetBlocks(from, to) => AnswerExact(l, from, to, 0);
    case _ =>
  }

  // ---- nodes other than the producer ---------------------------------------------------------

  /** Every node but the producer is at the replay of its own chain, and is down only if its chain is
      full. */
  ghost predicate FollowersReplayed(host: Host, s: System) {
    forall i :: 1 <= i < |s.nodes| ==>
      && Stored(s.nodes[i]) && Replayed(host, s.nodes[i])
      && (i in s.down ==> |s.nodes[i].headers| == TWO32)
  }

  lemma NextFollowers(host: Host, s: System, e: Event)
    requires Safe(host, s) && FollowersReplayed(host, s)
    requires Replay(host, Chain(s.nodes[0])).Some?
    ensures FollowersReplayed(host, Next(host, s, e))
  {
    hide AddBlock, React, Linked, Indexed, Verified, Replay, Replayed, Answerable;
    match e
    case Produce(b) =>
    case Deliver(p) =>
      if CanArrive(s, p) && p.dst >= 1 {
        assert Follows(host, s.nodes[p.dst], Chain(s.nodes[0]));
        ReactReplayed(host, |s.nodes|, s.nodes[p.dst], p, Chain(s.nodes[0]));
      }
    case AskStatus(i, j) =>
  }

  /** Whatever became of the producer's own state: while its chain replays, every other node is at the
      replay of its chain. */
  lemma {:induction false} FollowersAgree(host: Host, genesis: Block, engines: seq<Engine>,
                                          events: seq<Event>)
    requires genesis.header.height == 0 && engines != []
    requires Safe(host, Trace(host, Boot(host, genesis, engines), events))
    requires Replay(host, Chain(Trace(host, Boot(host, genesis, engines), events).nodes[0])).Some?
    ensures FollowersReplayed(host, Trace(host, Boot(host, genesis, engines), events))
  {
    hide Boot, Next, Safe, Replay, FollowersReplayed;
    var s0 := Boot(host, genesis, engines);
    if events == [] {
      BootAgreed(host, genesis, engines);
      AgreedFollowers(host, s0);
    } else {
      var n := |events| - 1;
      var s := Trace(host, s0, events[..n]);
      PrefixSafety(host, genesis, engines, events[..n]);
      NextSafe(host, s, events[n]);
      ChainKept(host, s, events[n]);
      FollowersAgree(host, genesis, engines, events[..n]);
      NextFollowers(host, s, events[n]);
    }
  }

  lemma ChainKept(host: Host, s: System, e: Event)
    requires Safe(host, s) && Safe(host, Next(host, s, e))
    requires Chain(s.nodes[0]) <= Chain(Next(host, s, e).nodes[0])
    requires Replay(host, Chain(Next(host, s, e).nodes[0])).Some?
    ensures Replay(host, Chain(s.nodes[0])).Some?
  {
    hide Next, Replay;
    var x, y := Chain(s.nodes[0]), Chain(Next(host, s, e).nodes[0]);
    ReplayPrefix(host, y, |x|);
    assert y[..|x|] == x;
  }

  // ---- all nodes -----------------------------------------------------------------------------------

  /** Every node is up and at the replay of its own chain. */
  ghost predicate Agreed(host: Host, s: System) {
    forall i :: 0 <= i < |s.nodes| ==>
      i !in s.down && Stored(s.nodes[i]) && Replayed(host, s.nodes[i])
  }

  lemma AgreedFollowers(host: Host, s: System)
    requires Agreed(host, s)
    ensures FollowersReplayed(host, s)
  {}

  /** Told on the state it meets: a proposal is clean for the producer; a request that arrives does not
      ask a full chain for its last block. */
  ghost predicate CleanEvent(host: Host, s: System, e: Event)
    requires s.nodes != []
  {
    match e
    case Produce(b) => Clean(host, s.nodes[0], b)
    case Deliver(p) => CanArrive(s, p) ==> Answerable(s.nodes[p.dst], p.msg)
    case AskStatus(_, _) => true
  }

  ghost predicate CleanTrace(host: Host, s: System, events: seq<Event>)
    requires s.nodes != []
  {
    forall k :: 0 <= k < |events| ==> CleanEvent(host, Trace(host, s, events[..k]), events[k])
  }

  ghost predicate SizedEvent(e: Event) { e.Produce? ==> Sized(e.block) }

  lemma ProduceAgreed(host: Host, s: System, b: Block)
    requires Safe(host, s) && Agreed(host, s)
    ensures CleanEvent(host, s, Produce(b)) ==> Agreed(host, Next(host, s, Produce(b)))
    ensures Agreed(host, Next(host, s, Produce(b))) && Sized(b) ==> CleanEvent(host, s, Produce(b))
  {
    hide AddBlock, Linked, Indexed, Verified, Replay, Clean, Supply, Replayed;
    var l := s.nodes[0];
    ReplayedSupply(host, l);
    ApplyReplayed(host, l, Add(b));
    assert Next(host, s, Produce(b)).nodes[0] == AddBlock(host, l, b).l;
  }

  lemma ReplayedSupply(host: Host, l: Ledger)
    requires Valid(host, l) && Replayed(host, l)
    ensures Supply(l.world) < TWO64
  {
    hide Replay, Linked, Indexed, Verified, Accounted, Supply;
    ReplayAccounted(host, Chain(l));
    AccountedSupply(host, HeadersOf(Chain(l)), l.world, AllTxs(Chain(l)[1..]));
  }

  lemma DeliverAgreed(host: Host, s: System, p: Packet)
    requires Safe(host, s) && Agreed(host, s)
    ensures Agreed(host, Next(host, s, Deliver(p))) <==> CleanEvent(host, s, Deliver(p))
  {
    hide React, Linked, Indexed, Verified, Replay, Replayed, Answerable;
    if CanArrive(s, p) {
      assert Follows(host, s.nodes[p.dst], Chain(s.nodes[0]));
      assert Replay(host, Chain(s.nodes[0])).Some? by { ReplaysItself(host, s.nodes[0]); }
      ReactReplayed(host, |s.nodes|, s.nodes[p.dst], p, Chain(s.nodes[0]));
    }
  }

  lemma ReplaysItself(host: Host, l: Ledger)
    requires Stored(l) && Replayed(host, l)
    ensures Replay(host, Chain(l)).Some?
  {}

  /** From a state where all nodes are up and agree with their chains, an event keeps it so exactly when
      it is clean. */
  lemma NextAgreed(host: Host, s: System, e: Event)
    requires Safe(host, s) && Agreed(host, s)
    ensures Safe(host, Next(host, s, e))
    ensures CleanEvent(host, s, e) ==> Agreed(host, Next(host, s, e))
    ensures Agreed(host, Next(host, s, e)) && SizedEvent(e) ==> CleanEvent(host, s, e)
  {
    NextSafe(host, s, e);
    match e
    case Produce(b) =>
      hide Next, Safe, Agreed, CleanEvent;
      ProduceAgreed(host, s, b);
    case Deliver(p) =>
      hide Next, Safe, Agreed, CleanEvent;
      DeliverAgreed(host, s, p);
    case AskStatus(i, j) =>
  }

  lemma BootAgreed(host: Host, genesis: Block, engines: seq<Engine>)
    requires genesis.header.height == 0 && engines != []
    ensures Safe(host, Boot(host, genesis, engines)) && Agreed(host, Boot(host, genesis, engines))
  {
    hide NewChain, Linked, Indexed, Verified, Replay;
    BootSafe(host, genesis, engines);
    NewChainReplayed(host, genesis);
    NewChainValid(host, genesis);
    forall i | 0 <= i < |engines|
      ensures var l := Boot(host, genesis, engines).nodes[i];
              Stored(l) && Replayed(host, l)
    {
      EngineIrrelevant(host, NewChain(host, genesis), engines[i]);
    }
  }

  ghost predicate AgreedAt(host: Host, s: System, events: seq<Event>, k: nat)
    requires s.nodes != [] && k <= |events|
  {
    Safe(host, Trace(host, s, events[..k])) && Agreed(host, Trace(host, s, events[..k]))
  }

  lemma TraceStep(host: Host, s: System, events: seq<Event>, k: nat)
    requires s.nodes != [] && k < |events|
    ensures Trace(host, s, events[..k + 1]) == Next(host, Trace(host, s, events[..k]), events[k])
  {
    assert events[..k + 1][..k] == events[..k];
  }

  lemma {:induction false} TraceAgreed(host: Host, genesis: Block, engines: seq<Engine>,
                                       events: seq<Event>, k: nat)
    requires genesis.header.height == 0 && engines != [] && k <= |events|
    requires CleanTrace(host, Boot(host, genesis, engines), events)
    ensures AgreedAt(host, Boot(host, genesis, engines), events, k)
  {
    hide Boot, Next, Safe, Agreed, CleanEvent;
    var s0 := Boot(host, genesis, engines);
    if k == 0 {
      BootAgreed(host, genesis, engines);
      assert events[..0] == [];
    } else {
      TraceAgreed(host, genesis, engines, events, k - 1);
      TraceStep(host, s0, events, k - 1);
      NextAgreed(host, Trace(host, s0, events[..k - 1]), events[k - 1]);
    }
  }

  /** Every node keeps running at the replay of its own chain, at every moment of a run, exactly when
      every event was clean for the state it met. */
  lemma AgreementExact(host: Host, genesis: Block, engines: seq<Engine>, events: seq<Event>)
    requires genesis.header.height == 0 && engines != []
    requires forall e <- events :: SizedEvent(e)
    ensures var s0 := Boot(host, genesis, engines);
            CleanTrace(host, s0, events)
            <==> forall k :: 0 <= k <= |events| ==> AgreedAt(host, s0, events, k)
  {
    hide Boot, Next, Safe, Agreed, CleanEvent, Trace, SizedEvent;
    var s0 := Boot(host, genesis, engines);
    if CleanTrace(host, s0, events) {
      forall k | 0 <= k <= |events| ensures AgreedAt(host, s0, events, k) {
        TraceAgreed(host, genesis, engines, events, k);
      }
    } else if forall k :: 0 <= k <= |events| ==> AgreedAt(host, s0, events, k) {
      forall k | 0 <= k < |events| ensures CleanEvent(host, Trace(host, s0, events[..k]), events[k]) {
        assert AgreedAt(host, s0, events, k) && AgreedAt(host, s0, events, k + 1);
        TraceStep(host, s0, events, k);
        NextAgreed(host, Trace(host, s0, events[..k]), events[k]);
      }
    }
  }

  /** Two nodes of one run at the same height have one chain. */
  lemma SameHeight(host: Host, s: System, i: nat, j: nat)
    requires Safe(host, s) && i < |s.nodes| && j < |s.nodes|
    requires Height(s.nodes[i]) == Height(s.nodes[j])
    ensures Stored(s.nodes[i]) && Stored(s.nodes[j])
    ensures Chain(s.nodes[i]) == Chain(s.nodes[j])
    ensures s.nodes[i].headers == s.nodes[j].headers
  {
    hide Linked, Indexed, Verified;
    var x, y := s.nodes[i], s.nodes[j];
    assert Follows(host, x, Chain(s.nodes[0])) && Follows(host, y, Chain(s.nodes[0]));
    assert Chain(x) == Chain(y);
    forall k | 0 <= k < |x.headers| ensures x.headers[k] == y.headers[k] {
      assert Chain(x)[k].header == x.headers[k];
      assert Chain(y)[k].header == y.headers[k];
    }
  }

  /** At any moment of a run, two nodes at the same height hold the same headers. If the producer's chain
      replays, nodes other than the producer also hold the same world state; if every event was clean,
      so does the producer. */
  lemma StateAgreement(host: Host, genesis: Block, engines: seq<Engine>, events: seq<Event>,
                       i: nat, j: nat)
    requires genesis.header.height == 0 && i < |engines| && j < |engines|
    ensures var s := Trace(host, Boot(host, genesis, engines), events);
            && Stored(s.nodes[0])
            && (Height(s.nodes[i]) == Height(s.nodes[j]) ==>
                  && s.nodes[i].headers == s.nodes[j].headers
                  && (CleanTrace(host, Boot(host, genesis, engines), events)
                      || (i >= 1 && j >= 1 && Replay(host, Chain(s.nodes[0])).Some?)
                      ==> s.nodes[i].world == s.nodes[j].world))
  {
    hide CleanTrace, Trace, Linked, Indexed, Verified, Replay;
    PrefixSafety(host, genesis, engines, events);
    var s := Trace(host, Boot(host, genesis, engines), events);
    if Height(s.nodes[i]) == Height(s.nodes[j]) {
      SameHeight(host, s, i, j);
      if CleanTrace(host, Boot(host, genesis, engines), events) {
        TraceAgreed(host, genesis, engines, events, |events|);
        assert events[..|events|] == events;
      } else if i >= 1 && j >= 1 && Replay(host, Chain(s.nodes[0])).Some? {
        FollowersAgree(host, genesis, engines, events);
      }
    }
  }

  // ---- catching up -----------------------------------------------------------------------------------

  /** The blocks above genesis could be added in order by a node running `engine`. */
  ghost predicate Acceptable(host: Host, engine: Engine, main: seq<Block>) {
    forall i :: 1 <= i < |main| ==>
      && main[i].header.height == i
      && main[i].header.prevBlockHash == host.sha256(host.headerBytes(main[i - 1].header))
      && EngineAccepts(host, engine, main[i].header)
      && Authentic(host, main[i])
  }

  lemma NextBlockValidates(host: Host, l: Ledger, main: seq<Block>)
    requires Follows(host, l, main)
    requires |l.headers| < |main| <= TWO32
    requires Acceptable(host, l.engine, main)
    ensures OnChain(main[|l.headers|], main)
    ensures Validate(host, l, main[|l.headers|]).None?
  {
    hide Indexed, Verified, Validate;
    var k := |l.headers|;
    ValidateExact(host, l, main[k]);
    assert main[k - 1] == Chain(l)[k - 1];
  }

  lemma NextBlockAccepted(host: Host, l: Ledger, main: seq<Block>)
    requires Follows(host, l, main) && Replayed(host, l)
    requires |l.headers| < |main| <= TWO32
    requires Replay(host, main).Some?
    requires Acceptable(host, l.engine, main)
    ensures var r := AddBlock(host, l, main[|l.headers|]);
            && r.verdict.Accepted?
            && Follows(host, r.l, main) && Replayed(host, r.l)
            && |r.l.headers| == |l.headers| + 1 && r.l.engine == l.engine
  {
    hide AddBlock, Validate, Linked, Indexed, Verified, Replay, Acceptable;
    var b := main[|l.headers|];
    NextBlockValidates(host, l, main);
    AddOnChain(host, l, b, main);
    AddReplayedOnChain(host, l, b, main);
    AddBlockHeaders(host, l, b);
  }

  /** Adding the next stretch of a chain that replays accepts every block of it. */
  lemma {:induction false} AddAllCatchesUp(host: Host, l: Ledger, main: seq<Block>, n: nat)
    requires Follows(host, l, main) && Replayed(host, l)
    requires |l.headers| <= n <= |main| <= TWO32
    requires Replay(host, main).Some?
    requires Acceptable(host, l.engine, main)
    ensures var r := AddAll(host, l, main[|l.headers|..n]);
            && r.verdict.Accepted?
            && Follows(host, r.l, main) && |r.l.headers| == n
            && Replayed(host, r.l)
    decreases n - |l.headers|
  {
    hide AddBlock, Linked, Indexed, Verified, Replay, Acceptable, Replayed;
    var k := |l.headers|;
    if k == n {
    } else {
      NextBlockAccepted(host, l, main);
      assert main[k..n][1..] == main[k + 1..n];
      AddAllCatchesUp(host, AddBlock(host, l, main[k]).l, main, n);
    }
  }

  /** A chain some node built is acceptable to any node whose engine asks no more. */
  lemma BuiltIsAcceptable(host: Host, p: Ledger, engine: Engine)
    requires Valid(host, p)
    requires forall i :: 1 <= i < |p.headers| ==> EngineAccepts(host, engine, p.headers[i])
    ensures Acceptable(host, engine, Chain(p))
  {
    hide Indexed;
    assert forall i :: 0 <= i < |p.headers| ==> Chain(p)[i].header == p.headers[i];
    assert forall i :: 1 <= i < |p.headers| ==> Authentic(host, Chain(p)[i]);
  }

  /** One exchange: a node behind its peer asks for the blocks above its own up to `to` (zero for
      all), gets exactly those, and ends with the peer's chain up to there and the state it replays to. The
      peer's own state does not matter. */
  lemma CatchUp(host: Host, l: Ledger, peer: Ledger, to: U32, n: nat)
    requires Valid(host, peer) && Follows(host, l, Chain(peer))
    requires Replayed(host, l) && Replay(host, Chain(peer)).Some?
    requires |peer.headers| < TWO32
    requires |l.headers| < n
    requires n == if to == 0 || to >= |peer.headers| then |peer.headers| else to + 1
    requires forall i :: 1 <= i < |peer.headers| ==> EngineAccepts(host, l.engine, peer.headers[i])
    ensures var missing := Chain(peer)[|l.headers|..n];
            var r := AddAll(host, l, missing);
            && Answer(peer, NextHeight(l), to) == Some(Blocks(missing))
            && r.verdict.Accepted?
            && Stored(r.l)
            && Chain(r.l) == Chain(peer)[..n]
            && Some(r.l.world) == Replay(host, Chain(peer)[..n])
  {
    hide Linked, Indexed, Verified, Replay, AddAll, Range, EngineAccepts, Acceptable, Answer;
    AnswerIs(peer, NextHeight(l), to);
    BuiltIsAcceptable(host, peer, l.engine);
    AddAllCatchesUp(host, l, Chain(peer), n);
    assert Chain(AddAll(host, l, Chain(peer)[|l.headers|..n]).l) == Chain(peer)[..n];
  }

  /** The three messages of a sync, end to end: status, request, blocks. The peer may have grown
      between its status and its answer. */
  lemma SyncExchange(host: Host, me: nat, peerId: nat, l: Ledger, before: Ledger, peer: Ledger)
    requires Valid(host, peer) && Follows(host, before, Chain(peer)) && Follows(host, l, Chain(before))
    requires Replayed(host, l) && Replay(host, Chain(peer)).Some?
    requires |l.headers| < |before.headers| <= |peer.headers| < TWO32
    requires forall i :: 1 <= i < |peer.headers| ==> EngineAccepts(host, l.engine, peer.headers[i])
    ensures var ask := GetBlocks(NextHeight(l), Height(before));
            var missing := Chain(before)[|l.headers|..];
            && OnStatus(me, peerId, l, Height(before)) == Reaction(l, {Packet(me, peerId, ask)}, true)
            && OnGetBlocks(peerId, me, peer, ask.from, ask.to)
               == Reaction(peer, {Packet(peerId, me, Blocks(missing))}, true)
            && var r := AddAll(host, l, missing);
               && r.verdict.Accepted? && Stored(r.l)
               && Chain(r.l) == Chain(before)
               && Some(r.l.world) == Replay(host, Chain(before))
  {
    hide Linked, Indexed, Verified, Replay, AddAll, Range, EngineAccepts, Height, Answer;
    assert Chain(l) <= Chain(peer);
    var n := |before.headers|;
    CatchUp(host, l, peer, Height(before), n);
    AnswerExact(peer, NextHeight(l), Height(before), 0);
    assert Chain(peer)[..n] == Chain(before);
    assert Chain(peer)[|l.headers|..n] == Chain(before)[|l.headers|..];
  }
}
