/** The proof-of-stake engine object, proved against its specification. */
module ProofOfStake {
  import opened Basics
  import opened Types
  import opened StakeSpec

  class PoSEngine {
    const host: Host
    var validators: map<Address, U64>
    var activeSet: seq<Address>
    var seenHeaders: map<U32, map<Address, Hash>>

    ghost function View(): Stakes
      reads this
    {
      Stakes(validators, activeSet, seenHeaders)
    }

    constructor (host: Host)
      ensures this.host == host && View() == NO_STAKES
    {
      this.host := host;
      validators, activeSet, seenHeaders := map[], [], map[];
    }

    method AddValidator(a: Address, stake: U64)
      modifies this
      ensures View() == StakeSpec.AddValidator(old(View()), a, stake)
    {
      validators := validators[a := stake];
      activeSet := activeSet + [a];
    }

    method SelectProposer(height: U32) returns (p: Option<Address>)
      ensures p == Proposer(activeSet, height)
    {
      if |activeSet| == 0 { return None; }
      var index := height % |activeSet|;
      return Some(activeSet[index]);
    }

    method VerifyHeader(h: Header) returns (error: Option<PosError>)
      modifies this
      ensures error == Check(host, old(View()), h)
      ensures View() == Record(host, old(View()), h)
    {
      var expected := SelectProposer(h.height);
      if expected.None? { return Some(NoValidators); }
      if expected.value != h.coinbase { return Some(WrongProposer); }
      if h.height !in seenHeaders {
        seenHeaders := seenHeaders[h.height := map[]];
      }
      var hash := host.HeaderHash(h);
      if h.coinbase in seenHeaders[h.height] {
        if seenHeaders[h.height][h.coinbase] != hash { return Some(DoubleSigned); }
      }
      var known: map<Address, Hash> := seenHeaders[h.height];
      var known': map<Address, Hash> := known[h.coinbase := hash];
      seenHeaders := seenHeaders[h.height := known'];
      return None;
    }

    method Slash(a: Address)
      modifies this
      ensures View() == StakeSpec.Slash(old(View()), a)
    {
      if a in validators {
        validators := validators[a := validators[a] / 2];
        var newSet := [];
        var i := 0;
        while i < |activeSet|
          invariant 0 <= i <= |activeSet|
          invariant newSet == Without(activeSet[..i], a)
          invariant activeSet == old(activeSet) && seenHeaders == old(seenHeaders)
          invariant validators == old(validators)[a := old(validators)[a] / 2]
        {
          assert activeSet[..i + 1][..i] == activeSet[..i];
          if activeSet[i] != a { newSet := newSet + [activeSet[i]]; }
          i := i + 1;
        }
        assert activeSet[..i] == activeSet;
        activeSet := newSet;
      }
    }

    /** Fills in the coinbase of the header it returns, or reports that nobody can propose. A prepared
        header is its proposer's: verification can refuse it only if another one was already seen. */
    method Prepare(h: Header) returns (h': Option<Header>)
      ensures h' == match Proposer(activeSet, h.height)
                    case None => None
                    case Some(p) => Some(h.(coinbase := p))
      ensures h'.None? <==> forall g: Header :: Check(host, View(), g) == Some(NoValidators)
      ensures h'.Some? ==>
                match Check(host, View(), h'.value)
                case None => true
                case Some(e) =>
                  && e == DoubleSigned
                  && exists hash :: Seen(View(), h.height, h'.value.coinbase, hash)
                                    && hash != host.sha256(host.headerBytes(h'.value))
    {
      var p := SelectProposer(h.height);
      if p.None? { return None; }
      assert Check(host, View(), h) != Some(NoValidators);
      h' := Some(h.(coinbase := p.value));
      if Check(host, View(), h'.value).Some? {
        assert Seen(View(), h.height, p.value, SeenAt(View(), h.height)[p.value]);
      }
    }
  }

  /** `a` already has a header of this hash recorded at the height. */
  predicate Seen(s: Stakes, height: U32, a: Address, hash: Hash) {
    a in SeenAt(s, height) && SeenAt(s, height)[a] == hash
  }
}
