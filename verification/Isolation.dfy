/** A copied world state and its original do not see each other's changes. */
module Isolation {
  import opened Basics
  import opened Types
  import opened Accounts
  import opened Machine
  import opened WorldObjects
  import opened Evm

  datatype StateOp =
    | Credit(addr: Address, amount: U64)
    | Count(addr: Address)
    | Pay(from: Address, to: Address, value: U64)
    | Save(addr: Address, key: Hash, bytes: seq<Byte>)
    | Deploy(host: Host, addr: Address, bytes: seq<Byte>)
    | Execute(call: Call, turns: nat)   // a contract run, up to some moment of it

  function ApplyOp(w: World, op: StateOp): World {
    match op
    case Credit(a, amount) => AddBalance(w, a, amount)
    case Count(a) => IncrementNonce(w, a)
    case Pay(from, to, value) =>
      (match Transfer(w, from, to, value)
       case Moved(w') => w'
       case Refused(_) => w)
    case Save(a, key, bytes) => SetAccountState(w, a, key, bytes)
    case Deploy(host, a, bytes) => SetCode(host, w, a, bytes)
    case Execute(call, turns) => RunFor(call, Start(w), turns).s.world
  }

  function ApplyOps(w: World, ops: seq<StateOp>): World {
    if ops == [] then w
    else ApplyOp(ApplyOps(w, ops[..|ops| - 1]), ops[|ops| - 1])
  }

  /** Separate objects with separate records; slices may be shared. */
  ghost predicate Apart(x: WorldState, y: WorldState)
    reads x, x.records, y, y.records
  {
    x != y && x.Valid() && y.Valid() && x.records !! y.records
  }

  method Perform(x: WorldState, op: StateOp)
    requires x.Valid()
    modifies x, x.records
    ensures x.Valid() && x.View() == ApplyOp(old(x.View()), op)
    ensures fresh(x.records - old(x.records)) && fresh(x.slices - old(x.slices))
  {
    hide WorldState.View, WorldState.Valid, RunFor;
    match op {
      case Credit(a, amount) => x.AddBalance(a, amount);
      case Count(a) => x.IncrementNonce(a);
      case Pay(from, to, value) => var _ := x.Transfer(from, to, value);
      case Save(a, key, bytes) =>
        var slice := new Byte[|bytes|](i requires 0 <= i < |bytes| => bytes[i]);
        assert slice[..] == bytes;
        x.SetAccountState(a, key, slice);
      case Deploy(host, a, bytes) =>
        var slice := new Byte[|bytes|](i requires 0 <= i < |bytes| => bytes[i]);
        assert slice[..] == bytes;
        x.SetCode(host, a, slice);
      case Execute(call, turns) =>
        var vm := new Evm(call, x);
        var _ := vm.Run(turns);
    }
  }

  /** Whatever is done to one of two separate states, the other keeps every observation. */
  method Mutate(x: WorldState, other: WorldState, ops: seq<StateOp>)
    requires Apart(x, other)
    modifies x, x.records
    ensures Apart(x, other)
    ensures x.View() == ApplyOps(old(x.View()), ops)
    ensures other.View() == old(other.View())
  {
    hide WorldState.View, WorldState.Valid, ApplyOp;
    ghost var w := x.View();
    var i := 0;
    while i < |ops|
      invariant 0 <= i <= |ops| && Apart(x, other)
      invariant x.View() == ApplyOps(w, ops[..i])
      invariant fresh(x.records - old(x.records))
      invariant other.View() == old(other.View())
      invariant other.records == old(other.records) && other.slices == old(other.slices)
    {
      assert ops[..i + 1][..i] == ops[..i];
      Perform(x, ops[i]);
      i := i + 1;
    }
    assert ops[..i] == ops;
  }

  /** Speculative execution: run on a copy, read the result, leave the original as it was. */
  method Speculate(original: WorldState, ops: seq<StateOp>) returns (copy: WorldState)
    requires original.Valid()
    ensures Apart(original, copy)
    ensures copy.View() == ApplyOps(original.View(), ops)
    ensures original.View() == old(original.View())
  {
    hide WorldState.View;
    copy := original.Copy();
    Mutate(copy, original, ops);
  }

  /** And the other way round: later changes to the original do not reach the copy. */
  method Snapshot(original: WorldState, ops: seq<StateOp>) returns (copy: WorldState)
    requires original.Valid()
    modifies original, original.records
    ensures Apart(original, copy)
    ensures original.View() == ApplyOps(old(original.View()), ops)
    ensures copy.View() == old(original.View())
  {
    hide WorldState.View;
    copy := original.Copy();
    Mutate(original, copy, ops);
  }
}
