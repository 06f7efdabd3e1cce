/** The interpreter in its own form: an object that updates its stack, memory and state step by step. */
module Evm {
  import opened Basics
  import opened Types
  import opened Machine
  import opened WorldObjects

  class Stack {
    var data: seq<Word>

    constructor ()
      ensures data == []
    {
      data := [];
    }

    method Push(v: int)
      modifies this
      ensures data == Machine.Push(old(data), v)
    {
      data := data + [v % TWO256];
    }

    method Pop() returns (v: Word)
      modifies this
      ensures v == Top(old(data)) && data == Rest(old(data))
    {
      if |data| == 0 { return 0; }
      v := data[|data| - 1];
      data := data[..|data| - 1];
    }
  }

  class Memory {
    var store: seq<Byte>

    constructor ()
      ensures store == []
    {
      store := [];
    }

    /** False when the runtime cannot allocate. */
    method Grow(host: Host, offset: U64, size: U64) returns (ok: bool)
      modifies this
      ensures match Expand(host, old(store), offset, size)
              case None => !ok
              case Some(grown) => ok && store == grown
    {
      if size == 0 { return true; }
      var needed := (offset + size) % TWO64;
      if needed > |store| {
        var newSize := (needed + 31) % TWO64 / 32 * 32;
        if newSize > host.allocLimit { return false; }
        store := Resize(store, newSize);
      }
      return true;
    }

    /** False when the access panics. */
    method Set(host: Host, offset: U64, value: seq<Byte>) returns (ok: bool)
      requires |value| < TWO64
      modifies this
      ensures match Access(host, old(store), offset, |value|)
              case None => !ok
              case Some(grown) => ok && store == Write(grown, offset, value)
    {
      ok := Grow(host, offset, |value|);
      if !ok { return; }
      if !InBounds(store, offset, |value|) { return false; }
      store := store[..offset] + value + store[offset + |value|..];
    }

    method Set32(host: Host, offset: U64, v: Word) returns (ok: bool)
      modifies this
      ensures match Access(host, old(store), offset, 32)
              case None => !ok
              case Some(grown) => ok && store == Write(grown, offset, Pad32(v))
    {
      var b := BytesOf(v);
      BytesLength(v, 32);
      Pow256Word();
      var padded := Zeros(32 - |b|) + b;
      ok := Set(host, offset, padded);
    }

    method Get(host: Host, offset: U64, size: U64) returns (data: Option<seq<Byte>>)
      modifies this
      ensures match Access(host, old(store), offset, size)
              case None => data.None?
              case Some(grown) => data == Some(grown[offset..offset + size]) && store == grown
    {
      var ok := Grow(host, offset, size);
      if !ok { return None; }
      if !InBounds(store, offset, size) { return None; }
      return Some(store[offset..offset + size]);
    }
  }

  class Evm {
    const call: Call
    var pc: nat
    var gasUsed: U64
    const stack: Stack
    const memory: Memory
    const state: WorldState

    ghost predicate Valid()
      reads this, state, state.records
    {
      state.Valid() && pc <= |call.code|
    }

    ghost function View(): State
      requires Valid()
      reads this, stack, memory, state, state.records, state.slices
    {
      State(pc, stack.data, memory.store, state.View(), gasUsed)
    }

    /** This object is where the step function says it should be. Memory after a panic is lost. */
    ghost predicate Shows(r: Option<Outcome>, expected: Status)
      requires Valid()
      reads this, stack, memory, state, state.records, state.slices
    {
      match expected
      case Running(s) => r.None? && View() == s
      case Halted(s, outcome) =>
        && r == Some(outcome)
        && state.View() == s.world && gasUsed == s.gasUsed
        && (!outcome.Panicked? ==> View() == s)
    }

    constructor (call: Call, state: WorldState)
      requires state.Valid()
      ensures this.call == call && this.state == state && fresh(stack) && fresh(memory)
      ensures Valid() && View() == Start(state.View())
    {
      this.call, this.state := call, state;
      pc, gasUsed := 0, 0;
      stack := new Stack();
      memory := new Memory();
    }

    method PushBytes(size: nat) returns (r: Option<Outcome>)
      requires Valid()
      modifies this`pc, stack
      ensures Valid() && Shows(r, ExecPush(call, size, old(View())))
    {
      hide WorldState.View, WorldState.Valid;
      if pc + size > |call.code| { return Some(Failed(PushOutOfBounds)); }
      stack.Push(FromBytes(call.code[pc..pc + size]));
      pc := pc + size;
      return None;
    }

    method Dup(n: nat) returns (r: Option<Outcome>)
      requires Valid() && n >= 1
      modifies stack
      ensures Valid() && Shows(r, ExecDup(n, old(View())))
    {
      hide WorldState.View, WorldState.Valid;
      if |stack.data| < n { return Some(Failed(DupOutOfBounds)); }
      stack.Push(stack.data[|stack.data| - n]);
      return None;
    }

    method Swap(n: nat) returns (r: Option<Outcome>)
      requires Valid() && n >= 1
      modifies stack
      ensures Valid() && Shows(r, ExecSwap(n, old(View())))
    {
      hide WorldState.View, WorldState.Valid;
      if |stack.data| <= n { return Some(Failed(SwapOutOfBounds)); }
      var top := |stack.data| - 1;
      var x, y := stack.data[top - n], stack.data[top];
      stack.data := stack.data[top := x][top - n := y];
      return None;
    }

    method Calculate(op: Byte) returns (r: Option<Outcome>)
      requires Valid() && IsBinary(op)
      modifies stack
      ensures Valid() && Shows(r, ExecBinary(op, old(View())))
    {
      hide WorldState.View, WorldState.Valid;
      var x := stack.Pop();
      var y := stack.Pop();
      stack.Push(Binary(op, x, y));
      return None;
    }

    method Sha3() returns (r: Option<Outcome>)
      requires Valid()
      modifies stack, memory
      ensures Valid() && Shows(r, ExecSha3(call, old(View())))
    {
      hide WorldState.View, WorldState.Valid, Access, Write;
      var offset := stack.Pop();
      var size := stack.Pop();
      var data := memory.Get(call.host, Low64(offset), Low64(size));
      if data.None? { return Some(Panicked); }
      stack.Push(call.host.keccak256(data.value));
      return None;
    }

    method Mload() returns (r: Option<Outcome>)
      requires Valid()
      modifies stack, memory
      ensures Valid() && Shows(r, ExecMload(call, old(View())))
    {
      hide WorldState.View, WorldState.Valid, Access, Write;
      var offset := stack.Pop();
      var data := memory.Get(call.host, Low64(offset), 32);
      if data.None? { return Some(Panicked); }
      stack.Push(FromBytes(data.value));
      return None;
    }

    method Mstore() returns (r: Option<Outcome>)
      requires Valid()
      modifies stack, memory
      ensures Valid() && Shows(r, ExecMstore(call, old(View())))
    {
      hide WorldState.View, WorldState.Valid, Access, Write;
      var offset := stack.Pop();
      var v := stack.Pop();
      var ok := memory.Set32(call.host, Low64(offset), v);
      return if ok then None else Some(Panicked);
    }

    method Mstore8() returns (r: Option<Outcome>)
      requires Valid()
      modifies stack, memory
      ensures Valid() && Shows(r, ExecMstore8(call, old(View())))
    {
      hide WorldState.View, WorldState.Valid, Access, Write;
      var offset := stack.Pop();
      var v := stack.Pop();
      var ok := memory.Set(call.host, Low64(offset), [Low64(v) % 256]);
      return if ok then None else Some(Panicked);
    }

    method Sload() returns (r: Option<Outcome>)
      requires Valid()
      modifies stack
      ensures Valid() && Shows(r, ExecSload(call, old(View())))
    {
      hide WorldState.View, WorldState.Valid, Accounts.GetAccountState;
      var key := stack.Pop();
      var value := state.GetAccountState(call.contract, call.host.sha256(Pad32(key)));
      if value == null || value.Length == 0 {
        stack.Push(0);
      } else {
        stack.Push(FromBytes(value[..]));
      }
      return None;
    }

    method Sstore() returns (r: Option<Outcome>)
      requires Valid()
      modifies stack, state, state.records
      ensures Valid() && Shows(r, ExecSstore(call, old(View())))
      ensures fresh(state.records - old(state.records)) && fresh(state.slices - old(state.slices))
    {
      hide WorldState.View, WorldState.Valid, Accounts.SetAccountState;
      var key := stack.Pop();
      var v := stack.Pop();
      var b := BytesOf(v);
      if |b| == 0 { b := [0]; }
      var value := new Byte[|b|](i requires 0 <= i < |b| => b[i]);
      assert value[..] == StoredBytes(v);
      state.SetAccountState(call.contract, call.host.sha256(Pad32(key)), value);
      return None;
    }

    method CallDataLoad() returns (r: Option<Outcome>)
      requires Valid()
      modifies stack
      ensures Valid() && Shows(r, ExecCallDataLoad(call, old(View())))
    {
      hide WorldState.View, WorldState.Valid;
      var x := stack.Pop();
      var offset := Low64(x);
      var res := Zeros(32);
      if offset < |call.callData| {
        res := Resize(call.callData[offset..], 32);
      }
      stack.Push(FromBytes(res));
      return None;
    }

    method Jump() returns (r: Option<Outcome>)
      requires Valid()
      modifies this`pc, stack
      ensures Valid() && Shows(r, ExecJump(call, old(View())))
    {
      hide WorldState.View, WorldState.Valid;
      var x := stack.Pop();
      var dest := Low64(x);
      if !ValidJumpDest(call.code, dest) { return Some(Failed(InvalidJump(dest))); }
      pc := dest;
      return None;
    }

    method JumpIf() returns (r: Option<Outcome>)
      requires Valid()
      modifies this`pc, stack
      ensures Valid() && Shows(r, ExecJumpi(call, old(View())))
    {
      hide WorldState.View, WorldState.Valid;
      var x := stack.Pop();
      var dest := Low64(x);
      var cond := stack.Pop();
      if cond != 0 {
        if !ValidJumpDest(call.code, dest) { return Some(Failed(InvalidJump(dest))); }
        pc := dest;
      }
      return None;
    }

    method Exit(op: Byte) returns (r: Option<Outcome>)
      requires Valid() && (op == RETURN || op == REVERT)
      modifies stack, memory
      ensures Valid() && Shows(r, ExecExit(call, op, old(View())))
    {
      hide WorldState.View, WorldState.Valid, Access;
      var offset := stack.Pop();
      var size := stack.Pop();
      var data := memory.Get(call.host, Low64(offset), Low64(size));
      if data.None? { return Some(Panicked); }
      return Some(if op == RETURN then Returned(data.value) else Failed(Reverted(data.value)));
    }

    /** POP, ISZERO, CALLVALUE, CALLDATASIZE, JUMPDEST, STOP and bytes that are no instruction. */
    method Plain(op: Byte) returns (r: Option<Outcome>)
      requires Valid() && IsSimple(op)
      modifies stack
      ensures Valid() && Shows(r, Exec(call, op, old(View())))
    {
      hide WorldState.View, WorldState.Valid;
      if op == POP {
        var _ := stack.Pop();
      } else if op == ISZERO {
        var x := stack.Pop();
        stack.Push(if x == 0 then 1 else 0);
      } else if op == CALLVALUE {
        stack.Push(call.value);
      } else if op == CALLDATASIZE {
        stack.Push(|call.callData|);
      } else if op == STOP {
        return Some(Returned([]));
      }
      return None;
    }

    /** One instruction, gas charged and pc advanced. */
    method Execute(op: Byte) returns (r: Option<Outcome>)
      requires Valid()
      modifies this`pc, stack, memory, state, state.records
      ensures Valid() && Shows(r, Exec(call, op, old(View())))
      ensures fresh(state.records - old(state.records)) && fresh(state.slices - old(state.slices))
    {
      ghost var s := View();
      assert s.pc <= |call.code|;
      hide View, Shows, WorldState.Valid;
      Dispatch(call, op, s);
      if PUSH1 <= op <= PUSH32 { r := PushBytes(op - PUSH1 + 1); }
      else if DUP1 <= op <= DUP16 { r := Dup(op - DUP1 + 1); }
      else if SWAP1 <= op <= SWAP16 { r := Swap(op - SWAP1 + 1); }
      else if IsBinary(op) { r := Calculate(op); }
      else if op == SHA3 { r := Sha3(); }
      else if op == MLOAD { r := Mload(); }
      else if op == MSTORE { r := Mstore(); }
      else if op == MSTORE8 { r := Mstore8(); }
      else if op == SLOAD { r := Sload(); }
      else if op == SSTORE { r := Sstore(); }
      else if op == CALLDATALOAD { r := CallDataLoad(); }
      else if op == JUMP { r := Jump(); }
      else if op == JUMPI { r := JumpIf(); }
      else if op == RETURN || op == REVERT { r := Exit(op); }
      else { r := Plain(op); }
    }

    /** One turn of the loop. */
    method Turn() returns (r: Option<Outcome>)
      requires Valid()
      modifies this, stack, memory, state, state.records
      ensures Valid() && Shows(r, Step(call, old(View())))
      ensures fresh(state.records - old(state.records)) && fresh(state.slices - old(state.slices))
    {
      hide WorldState.View, WorldState.Valid, Exec;
      if pc >= |call.code| { return Some(Returned([])); }
      var op := call.code[pc];
      if (gasUsed + 1) % TWO64 > call.gasLimit { return Some(Failed(OutOfGas)); }
      ghost var s := View();
      gasUsed := (gasUsed + 1) % TWO64;
      pc := pc + 1;
      assert View() == Charged(s);
      r := Execute(op);
    }

    /** The loop, watched for `turns` turns: at every moment of a run, whether it ever ends or not,
        the object shows what the step function computes. `None` means it is still running. */
    method Run(turns: nat) returns (outcome: Option<Outcome>)
      requires Valid()
      modifies this, stack, memory, state, state.records
      ensures Valid() && Shows(outcome, RunFor(call, old(View()), turns))
      ensures fresh(state.records - old(state.records)) && fresh(state.slices - old(state.slices))
    {
      hide View, Step, WorldState.Valid;
      ghost var end := RunFor(call, View(), turns);
      outcome := None;
      var left := turns;
      while outcome.None? && left > 0
        invariant Valid()
        invariant outcome.None? ==> RunFor(call, View(), left) == end
        invariant outcome.Some? ==> Shows(outcome, end)
        invariant fresh(state.records - old(state.records)) && fresh(state.slices - old(state.slices))
      {
        outcome := Turn();
        left := left - 1;
      }
    }
  }

  /** Instructions that neither jump nor touch memory or state. */
  predicate IsSimple(op: Byte) {
    && !(PUSH1 <= op <= SWAP16)
    && !IsBinary(op)
    && op !in {SHA3, MLOAD, MSTORE, MSTORE8, SLOAD, SSTORE, CALLDATALOAD, JUMP, JUMPI, RETURN, REVERT}
  }

  lemma Dispatch(call: Call, op: Byte, s: State)
    requires s.pc <= |call.code|
    ensures PUSH1 <= op <= PUSH32 ==> Exec(call, op, s) == ExecPush(call, op - PUSH1 + 1, s)
    ensures DUP1 <= op <= DUP16 ==> Exec(call, op, s) == ExecDup(op - DUP1 + 1, s)
    ensures SWAP1 <= op <= SWAP16 ==> Exec(call, op, s) == ExecSwap(op - SWAP1 + 1, s)
    ensures IsBinary(op) ==> Exec(call, op, s) == ExecBinary(op, s)
    ensures op == SHA3 ==> Exec(call, op, s) == ExecSha3(call, s)
    ensures op == MLOAD ==> Exec(call, op, s) == ExecMload(call, s)
    ensures op == MSTORE ==> Exec(call, op, s) == ExecMstore(call, s)
    ensures op == MSTORE8 ==> Exec(call, op, s) == ExecMstore8(call, s)
    ensures op == SLOAD ==> Exec(call, op, s) == ExecSload(call, s)
    ensures op == SSTORE ==> Exec(call, op, s) == ExecSstore(call, s)
    ensures op == CALLDATALOAD ==> Exec(call, op, s) == ExecCallDataLoad(call, s)
    ensures op == JUMP ==> Exec(call, op, s) == ExecJump(call, s)
    ensures op == JUMPI ==> Exec(call, op, s) == ExecJumpi(call, s)
    ensures op == RETURN || op == REVERT ==> Exec(call, op, s) == ExecExit(call, op, s)
  {}
}
