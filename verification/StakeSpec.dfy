/** The proof-of-stake engine as a value, and safety over its runs. */
module StakeSpec {
  import opened Basics
  import opened Types

  datatype Stakes = Stakes(
    validators: map<Address, U64>,
    active: seq<Address>,
    seen: map<U32, map<Address, Hash>>)

  const NO_STAKES := Stakes(map[], [], map[])

  datatype PosError = NoValidators | WrongProposer | DoubleSigned

  // ---- transitions -----------------------------------------------------------------

  function Proposer(active: seq<Address>, height: U32): Option<Address> {
    if active == [] then None else Some(active[height % |active|])
  }

  function AddValidator(s: Stakes, a: Address, stake: U64): Stakes {
    s.(validators := s.validators[a := stake], active := s.active + [a])
  }

  function Without(active: seq<Address>, a: Address): seq<Address> {
    if active == [] then []
    else
      var rest := Without(active[..|active| - 1], a);
      if active[|active| - 1] == a then rest else rest + [active[|active| - 1]]
  }

  function Slash(s: Stakes, a: Address): Stakes {
    if a in s.validators
    then s.(validators := s.validators[a := s.validators[a] / 2], active := Without(s.active, a))
    else s
  }

  function SeenAt(s: Stakes, height: U32): map<Address, Hash> {
    if height in s.seen then s.seen[height] else map[]
  }

  function Check(host: Host, s: Stakes, h: Header): Option<PosError> {
    match Proposer(s.active, h.height)
    case None => Some(NoValidators)
    case Some(p) =>
      if p != h.coinbase then Some(WrongProposer)
      else
        var known := SeenAt(s, h.height);
        if h.coinbase in known && known[h.coinbase] != host.HeaderHash(h) then Some(DoubleSigned)
        else None
  }

  /** Only an accepted header is recorded. */
  function Record(host: Host, s: Stakes, h: Header): Stakes {
    if Check(host, s, h).None?
    then s.(seen := s.seen[h.height := SeenAt(s, h.height)[h.coinbase := host.HeaderHash(h)]])
    else s
  }

  // ---- runs ------------------------------------------------------------------------------

  datatype Event =
    | Join(addr: Address, stake: U64)
    | Punish(addr: Address)
    | Verify(header: Header)

  function Apply(host: Host, s: Stakes, e: Event): Stakes {
    match e
    case Join(a, stake) => AddValidator(s, a, stake)
    case Punish(a) => Slash(s, a)
    case Verify(h) => Record(host, s, h)
  }

  function After(host: Host, s: Stakes, events: seq<Event>): Stakes {
    if events == [] then s
    else Apply(host, After(host, s, events[..|events| - 1]), events[|events| - 1])
  }

  /** The `i`-th event of a run from nothing accepts a header. */
  predicate Accepts(host: Host, events: seq<Event>, i: nat)
    requires i < |events|
  {
    && events[i].Verify?
    && Check(host, After(host, NO_STAKES, events[..i]), events[i].header).None?
  }

  function HashOf(host: Host, h: Header): Hash { host.sha256(host.headerBytes(h)) }

  ghost predicate Recorded(host: Host, s: Stakes, h: Header) {
    h.coinbase in SeenAt(s, h.height) && SeenAt(s, h.height)[h.coinbase] == host.sha256(host.headerBytes(h))
  }

  lemma ApplyKeepsRecord(host: Host, s: Stakes, e: Event, h: Header)
    requires Recorded(host, s, h)
    ensures Recorded(host, Apply(host, s, e), h)
  {}

  lemma {:induction false} AcceptedIsRecorded(host: Host, events: seq<Event>, i: nat)
    requires i < |events| && Accepts(host, events, i)
    ensures Recorded(host, After(host, NO_STAKES, events), events[i].header)
  {
    hide Recorded, Apply;
    var n := |events| - 1;
    if i < n {
      assert events[..n][..i] == events[..i];
      AcceptedIsRecorded(host, events[..n], i);
      ApplyKeepsRecord(host, After(host, NO_STAKES, events[..n]), events[n], events[i].header);
    } else {
      JustRecorded(host, After(host, NO_STAKES, events[..n]), events[n].header);
    }
  }

  lemma JustRecorded(host: Host, s: Stakes, h: Header)
    requires Check(host, s, h).None?
    ensures Recorded(host, Apply(host, s, Verify(h)), h)
  {}

  /** No validator ever has two different headers accepted at one height, whatever happens between. */
  lemma NoEquivocation(host: Host, events: seq<Event>, i: nat, j: nat)
    requires i <= j < |events| && Accepts(host, events, i) && Accepts(host, events, j)
    requires events[i].header.height == events[j].header.height
    requires events[i].header.coinbase == events[j].header.coinbase
    ensures HashOf(host, events[i].header) == HashOf(host, events[j].header)
  {
    if i < j {
      assert events[..j][..i] == events[..i];
      AcceptedIsRecorded(host, events[..j], i);
    }
  }

  lemma RecordIs(host: Host, s: Stakes, h: Header, height: U32, a: Address)
    requires a in SeenAt(Record(host, s, h), height)
    ensures var s' := Record(host, s, h);
            if Check(host, s, h).None? && h.height == height && h.coinbase == a
            then SeenAt(s', height)[a] == HashOf(host, h)
            else a in SeenAt(s, height) && SeenAt(s', height)[a] == SeenAt(s, height)[a]
  {}

  /** Whatever is recorded was accepted. */
  lemma {:induction false} RecordedWasAccepted(host: Host, events: seq<Event>, height: U32, a: Address)
    returns (i: nat)
    requires a in SeenAt(After(host, NO_STAKES, events), height)
    ensures i < |events| && Accepts(host, events, i)
    ensures events[i].header.height == height && events[i].header.coinbase == a
    ensures SeenAt(After(host, NO_STAKES, events), height)[a] == HashOf(host, events[i].header)
    decreases |events|
  {
    hide SeenAt, Record, Check, HashOf;
    if events == [] {
      NothingSeen(height);
      assert false;
    } else {
      var n := |events| - 1;
      var before := After(host, NO_STAKES, events[..n]);
      match events[n]
      case Verify(h) =>
        RecordIs(host, before, h, height, a);
        if Check(host, before, h).None? && h.height == height && h.coinbase == a {
          i := n;
        } else {
          i := RecordedWasAccepted(host, events[..n], height, a);
          assert events[..n][..i] == events[..i];
        }
      case _ =>
        SameSeen(host, before, events[n], height);
        i := RecordedWasAccepted(host, events[..n], height, a);
        assert events[..n][..i] == events[..i];
    }
  }

  lemma NothingSeen(height: U32)
    ensures SeenAt(NO_STAKES, height) == map[]
  {}

  lemma SameSeen(host: Host, s: Stakes, e: Event, height: U32)
    requires !e.Verify?
    ensures SeenAt(Apply(host, s, e), height) == SeenAt(s, height)
  {}

  /** Over any run a header is accepted exactly when its coinbase holds the slot of its height and every
      header accepted before with its height and coinbase had its hash. */
  lemma AcceptsExact(host: Host, events: seq<Event>, j: nat)
    requires j < |events| && events[j].Verify?
    ensures var active, h := After(host, NO_STAKES, events[..j]).active, events[j].header;
            Accepts(host, events, j)
            <==> && active != [] && active[h.height % |active|] == h.coinbase
                 && forall i :: 0 <= i < j && Accepts(host, events, i)
                                && events[i].header.height == h.height
                                && events[i].header.coinbase == h.coinbase
                                ==> HashOf(host, events[i].header) == HashOf(host, h)
  {
    var s, h := After(host, NO_STAKES, events[..j]), events[j].header;
    if Accepts(host, events, j) {
      forall i | && 0 <= i < j && Accepts(host, events, i)
                 && events[i].header.height == h.height && events[i].header.coinbase == h.coinbase
        ensures HashOf(host, events[i].header) == HashOf(host, h)
      {
        NoEquivocation(host, events, i, j);
      }
    } else if h.coinbase in SeenAt(s, h.height) {
      var i := RecordedWasAccepted(host, events[..j], h.height, h.coinbase);
      assert events[..j][..i] == events[..i];
      assert Accepts(host, events, i);
    }
  }

  /** If the same addresses are active when both are accepted, one height has one header hash. */
  lemma OneHeaderPerHeight(host: Host, events: seq<Event>, i: nat, j: nat)
    requires i <= j < |events| && Accepts(host, events, i) && Accepts(host, events, j)
    requires events[i].header.height == events[j].header.height
    requires After(host, NO_STAKES, events[..i]).active == After(host, NO_STAKES, events[..j]).active
    ensures HashOf(host, events[i].header) == HashOf(host, events[j].header)
  {
    NoEquivocation(host, events, i, j);
  }

  // ---- slashing -------------------------------------------------------------------------------

  lemma {:induction false} WithoutIs(active: seq<Address>, a: Address)
    ensures a !in Without(active, a)
    ensures forall b <- active :: b != a ==> b in Without(active, a)
    ensures forall b <- Without(active, a) :: b in active
    ensures multiset(Without(active, a)) == multiset(active)[a := 0]
  {
    if active == [] {
    } else {
      var n := |active| - 1;
      WithoutIs(active[..n], a);
      assert active == active[..n] + [active[n]];
    }
  }

  /** Only stakeholders are active. */
  lemma {:induction false} ActiveAreValidators(host: Host, events: seq<Event>)
    ensures forall a <- After(host, NO_STAKES, events).active ::
              a in After(host, NO_STAKES, events).validators
  {
    if events == [] {
    } else {
      var n := |events| - 1;
      ActiveAreValidators(host, events[..n]);
      if events[n].Punish? {
        WithoutIs(After(host, NO_STAKES, events[..n]).active, events[n].addr);
      }
    }
  }

  lemma {:induction false} StaysOut(host: Host, s: Stakes, events: seq<Event>, a: Address)
    requires a !in s.active
    requires forall e <- events :: !(e.Join? && e.addr == a)
    ensures a !in After(host, s, events).active
  {
    if events == [] {
    } else {
      var n := |events| - 1;
      StaysOut(host, s, events[..n], a);
      assert events[n] in events;
      if events[n].Punish? {
        WithoutIs(After(host, s, events[..n]).active, events[n].addr);
      }
    }
  }

  /** From its slashing until it joins again, an address is never chosen and no header of its is
      accepted. */
  lemma SlashedIsOut(host: Host, before: seq<Event>, a: Address, later: seq<Event>, h: Header)
    requires forall e <- later :: !(e.Join? && e.addr == a)
    ensures var s := After(host, Slash(After(host, NO_STAKES, before), a), later);
            && a !in s.active
            && Proposer(s.active, h.height) != Some(a)
            && (h.coinbase == a ==> Check(host, s, h).Some?)
  {
    var s0 := After(host, NO_STAKES, before);
    ActiveAreValidators(host, before);
    WithoutIs(s0.active, a);
    StaysOut(host, Slash(s0, a), later, a);
    var s := After(host, Slash(s0, a), later);
    if s.active != [] {
      assert s.active[h.height % |s.active|] in s.active;
    }
  }

  /** The addresses that joined, in order of joining, without those slashed since. */
  function Survivors(events: seq<Event>): seq<Address> {
    if events == [] then []
    else
      var rest := Survivors(events[1..]);
      if events[0].Join? && Punish(events[0].addr) !in events[1..] then [events[0].addr] + rest else rest
  }

  lemma {:induction false} SurvivorsAfter(events: seq<Event>, e: Event)
    ensures Survivors(events + [e])
            == match e
               case Join(a, _) => Survivors(events) + [a]
               case Punish(a) => Without(Survivors(events), a)
               case Verify(_) => Survivors(events)
    decreases |events|
  {
    var all := events + [e];
    if events == [] {
      assert all[1..] == [];
      assert Survivors([]) == [];
    } else {
      assert all[1..] == events[1..] + [e];
      SurvivorsAfter(events[1..], e);
      var rest := Survivors(events[1..]);
      if e.Punish? && events[0].Join? {
        WithoutFront(events[0].addr, rest, e.addr);
      }
    }
  }

  lemma {:induction false} WithoutFront(b: Address, active: seq<Address>, a: Address)
    ensures Without([b] + active, a) == (if b == a then [] else [b]) + Without(active, a)
    decreases |active|
  {
    var all := [b] + active;
    if active == [] {
      assert all[..0] == [];
      assert Without([], a) == [];
    } else {
      WithoutFront(b, active[..|active| - 1], a);
      assert all[..|all| - 1] == [b] + active[..|active| - 1];
    }
  }

  lemma {:induction false} WithoutAbsent(active: seq<Address>, a: Address)
    requires a !in active
    ensures Without(active, a) == active
  {
    if active == [] {
    } else {
      var n := |active| - 1;
      WithoutAbsent(active[..n], a);
      assert active == active[..n] + [active[n]];
    }
  }

  /** After any run the active set lists who joined and was not slashed since, in order of joining. */
  lemma {:induction false} ActiveIs(host: Host, events: seq<Event>)
    ensures After(host, NO_STAKES, events).active == Survivors(events)
  {
    if events == [] {
    } else {
      var n := |events| - 1;
      ActiveIs(host, events[..n]);
      assert events == events[..n] + [events[n]];
      SurvivorsAfter(events[..n], events[n]);
      ActiveAreValidators(host, events[..n]);
      if events[n].Punish? && events[n].addr !in After(host, NO_STAKES, events[..n]).validators {
        WithoutAbsent(Survivors(events[..n]), events[n].addr);
      }
    }
  }

  function Slashes(events: seq<Event>, a: Address): nat {
    if events == [] then 0
    else Slashes(events[..|events| - 1], a)
         + (if events[|events| - 1] == Punish(a) then 1 else 0)
  }

  lemma DivHalf(x: nat, p: nat)
    requires p > 0
    ensures x / p / 2 == x / (2 * p)
  {
    var q, r := x / p, x % p;
    var h, b := q / 2, q % 2;
    assert x == p * q + r;
    assert p * q == (2 * p) * h + p * b;
    assert p * b <= p;
    DivUnique(x, 2 * p, h, p * b + r);
  }

  /** After k slashes and no new deposit, a stake is the floor of itself over 2^k. */
  lemma {:induction false} StakeAfterSlashes(host: Host, s: Stakes, events: seq<Event>, a: Address)
    requires a in s.validators
    requires forall e <- events :: !(e.Join? && e.addr == a)
    ensures a in After(host, s, events).validators
    ensures After(host, s, events).validators[a] == s.validators[a] / Pow2(Slashes(events, a))
  {
    if events == [] {
    } else {
      var n := |events| - 1;
      StakeAfterSlashes(host, s, events[..n], a);
      assert events[n] in events;
      if events[n] == Punish(a) {
        DivHalf(s.validators[a], Pow2(Slashes(events[..n], a)));
      }
    }
  }

  lemma {:induction false} AfterAppend(host: Host, s: Stakes, x: seq<Event>, y: seq<Event>)
    ensures After(host, s, x + y) == After(host, After(host, s, x), y)
    decreases |y|
  {
    hide Apply;
    if y == [] {
      assert x + y == x;
    } else {
      AfterAppend(host, s, x, y[..|y| - 1]);
      assert (x + y)[..|x + y| - 1] == x + y[..|y| - 1];
    }
  }

  /** A validator's stake is its last deposit over 2^k, rounded down, after k slashes since. */
  lemma StakeIs(host: Host, before: seq<Event>, a: Address, stake: U64, later: seq<Event>)
    requires forall e <- later :: !(e.Join? && e.addr == a)
    ensures var s := After(host, NO_STAKES, before + [Join(a, stake)] + later);
            a in s.validators && s.validators[a] == stake / Pow2(Slashes(later, a))
  {
    var upto := before + [Join(a, stake)];
    AfterAppend(host, NO_STAKES, upto, later);
    assert upto[..|before|] == before;
    StakeAfterSlashes(host, After(host, NO_STAKES, upto), later, a);
  }

  // ---- rotation ---------------------------------------------------------------------------------

  function Proposers(active: seq<Address>, start: nat, n: nat): (r: seq<Address>)
    requires active != [] && start + n <= TWO32
    ensures |r| == n
    ensures forall i :: 0 <= i < n ==> Some(r[i]) == Proposer(active, start + i)
  {
    seq<Address>(n, i requires 0 <= i < n => Proposer(active, start + i).value)
  }

  lemma ModAfter(start: nat, i: nat, n: nat)
    requires 0 < n && i < n
    ensures var k := start % n;
            (start + i) % n == if k + i < n then k + i else k + i - n
  {
    var q, k := start / n, start % n;
    assert start == n * q + k;
    if k + i < n {
      ModUnique(start + i, n, q, k + i);
    } else {
      assert start + i == n * (q + 1) + (k + i - n);
      ModUnique(start + i, n, q + 1, k + i - n);
    }
  }

  lemma ModUnique(x: nat, d: nat, q: nat, r: nat)
    requires d > 0 && x == d * q + r && r < d
    ensures x % d == r
  {
    DivUnique(x, d, q, r);
    assert x == d * (x / d) + x % d;
  }

  /** Over as many consecutive heights as there are slots, the slots propose in order, wrapping round, from
      the one at the first height modulo their number; so each address proposes as often as it occurs. */
  lemma Rotation(active: seq<Address>, start: nat)
    requires active != [] && start + |active| <= TWO32
    ensures var k := start % |active|;
            Proposers(active, start, |active|) == active[k..] + active[..k]
    ensures multiset(Proposers(active, start, |active|)) == multiset(active)
  {
    var n := |active|;
    var k := start % n;
    var ps := Proposers(active, start, n);
    forall i | 0 <= i < n ensures ps[i] == (active[k..] + active[..k])[i] {
      ModAfter(start, i, n);
    }
    assert ps == active[k..] + active[..k];
    assert active == active[..k] + active[k..];
  }
}
