/** The contract interpreter as a step function over value states. */
module Machine {
  import opened Basics
  import opened Types
  import opened Accounts

  // ---- opcodes the interpreter acts on; every other byte is a one-gas no-op ----

  const STOP := 0x00
  const ADD := 0x01
  const MUL := 0x02
  const SUB := 0x03
  const DIV := 0x04
  const LT := 0x10
  const GT := 0x11
  const EQ := 0x14
  const ISZERO := 0x15
  const AND := 0x16
  const OR := 0x17
  const SHA3 := 0x20
  const CALLVALUE := 0x34
  const CALLDATALOAD := 0x35
  const CALLDATASIZE := 0x36
  const POP := 0x50
  const MLOAD := 0x51
  const MSTORE := 0x52
  const MSTORE8 := 0x53
  const SLOAD := 0x54
  const SSTORE := 0x55
  const JUMP := 0x56
  const JUMPI := 0x57
  const JUMPDEST := 0x5b
  const PUSH1 := 0x60
  const PUSH32 := 0x7f
  const DUP1 := 0x80
  const DUP16 := 0x8f
  const SWAP1 := 0x90
  const SWAP16 := 0x9f
  const RETURN := 0xf3
  const REVERT := 0xfd

  /** What a run is given and never changes. */
  datatype Call = Call(
    host: Host,
    code: seq<Byte>,
    callData: seq<Byte>,
    contract: Address,
    value: nat,
    gasLimit: U64)

  datatype State = State(
    pc: nat,
    stack: seq<Word>,      // top is last
    memory: seq<Byte>,
    world: World,
    gasUsed: U64)

  datatype VmError =
    | OutOfGas
    | PushOutOfBounds
    | DupOutOfBounds
    | SwapOutOfBounds
    | InvalidJump(dest: nat)
    | Reverted(payload: seq<Byte>)

  datatype Outcome = Returned(data: seq<Byte>) | Failed(error: VmError) | Panicked

  datatype Status = Running(s: State) | Halted(s: State, outcome: Outcome)

  function Start(w: World): State { State(0, [], [], w, 0) }

  // ---- stack -------------------------------------------------------------------

  /** Masking keeps 256 bits, two's complement for negative differences. */
  function Push(stack: seq<Word>, v: int): seq<Word> { stack + [v % TWO256] }

  function Top(stack: seq<Word>): Word { if stack == [] then 0 else stack[|stack| - 1] }

  function Rest(stack: seq<Word>): seq<Word> { if stack == [] then [] else stack[..|stack| - 1] }

  function Low64(x: Word): U64 { x % TWO64 }

  // ---- memory --------------------------------------------------------------------

  /** `copy` of the old store into a fresh zeroed store of `size` bytes. */
  function Resize(store: seq<Byte>, size: nat): (r: seq<Byte>)
    ensures |r| == size
  {
    seq(size, i requires 0 <= i < size => if i < |store| then store[i] else 0)
  }

  /** Growth with uint64 arithmetic; `None` when the runtime cannot allocate the new store. */
  function Expand(host: Host, store: seq<Byte>, offset: U64, size: U64): Option<seq<Byte>> {
    if size == 0 then Some(store)
    else
      var needed := (offset + size) % TWO64;
      if needed <= |store| then Some(store)
      else
        var newSize := (needed + 31) % TWO64 / 32 * 32;
        if newSize > host.allocLimit then None else Some(Resize(store, newSize))
  }

  /** Whether `store[offset : offset+size]` is within bounds, the end computed in uint64. */
  predicate InBounds(store: seq<Byte>, offset: U64, size: U64) {
    offset <= (offset + size) % TWO64 <= |store|
  }

  /** The store after an access grows it, or `None` if the access panics. */
  function Access(host: Host, store: seq<Byte>, offset: U64, size: U64): (r: Option<seq<Byte>>)
    ensures r.Some? ==> offset + size <= |r.value| && offset + size < TWO64
  {
    match Expand(host, store, offset, size)
    case None => None
    case Some(grown) =>
      if InBounds(grown, offset, size) then Some(grown) else None
  }

  /** Writing `value` at `offset` into a store that already covers it. */
  function Write(store: seq<Byte>, offset: nat, value: seq<Byte>): (r: seq<Byte>)
    requires offset + |value| <= |store|
    ensures |r| == |store|
  {
    store[..offset] + value + store[offset + |value|..]
  }

  // ---- one instruction, gas already charged and pc already advanced -------------------

  function ExecPush(call: Call, size: nat, s: State): Status
    requires s.pc <= |call.code|
  {
    if s.pc + size > |call.code| then Halted(s, Failed(PushOutOfBounds))
    else
      var v := FromBytes(call.code[s.pc..s.pc + size]);
      Running(s.(stack := Push(s.stack, v), pc := s.pc + size))
  }

  function ExecDup(n: nat, s: State): Status
    requires n >= 1
  {
    if |s.stack| < n then Halted(s, Failed(DupOutOfBounds))
    else Running(s.(stack := Push(s.stack, s.stack[|s.stack| - n])))
  }

  function ExecSwap(n: nat, s: State): Status
    requires n >= 1
  {
    if |s.stack| <= n then Halted(s, Failed(SwapOutOfBounds))
    else
      var top := |s.stack| - 1;
      Running(s.(stack := s.stack[top := s.stack[top - n]][top - n := s.stack[top]]))
  }

  predicate IsBinary(op: Byte) {
    op in {ADD, MUL, SUB, DIV, LT, GT, EQ, AND, OR}
  }

  /** `x` is the value popped first. */
  function Binary(op: Byte, x: Word, y: Word): int
    requires IsBinary(op)
  {
    if op == ADD then x + y
    else if op == SUB then x - y
    else if op == MUL then x * y
    else if op == DIV then (if y == 0 then 0 else x / y)
    else if op == EQ then (if x == y then 1 else 0)
    else if op == LT then (if x < y then 1 else 0)
    else if op == GT then (if x > y then 1 else 0)
    else if op == AND then BitAnd(x, y)
    else BitOr(x, y)
  }

  function ExecBinary(op: Byte, s: State): Status
    requires IsBinary(op)
  {
    var x, st1 := Top(s.stack), Rest(s.stack);
    var y, st2 := Top(st1), Rest(st1);
    Running(s.(stack := Push(st2, Binary(op, x, y))))
  }

  function ExecIsZero(s: State): Status {
    Running(s.(stack := Push(Rest(s.stack), if Top(s.stack) == 0 then 1 else 0)))
  }

  function ExecSha3(call: Call, s: State): Status {
    var offset, st1 := Low64(Top(s.stack)), Rest(s.stack);
    var size, st2 := Low64(Top(st1)), Rest(st1);
    match Access(call.host, s.memory, offset, size)
    case None => Halted(s.(stack := st2), Panicked)
    case Some(grown) =>
      var digest := call.host.keccak256(grown[offset..offset + size]);
      Running(s.(stack := Push(st2, digest), memory := grown))
  }

  function ExecMload(call: Call, s: State): Status {
    var offset, st1 := Low64(Top(s.stack)), Rest(s.stack);
    match Access(call.host, s.memory, offset, 32)
    case None => Halted(s.(stack := st1), Panicked)
    case Some(grown) =>
      Running(s.(stack := Push(st1, FromBytes(grown[offset..offset + 32])), memory := grown))
  }

  function ExecMstore(call: Call, s: State): Status {
    var offset, st1 := Low64(Top(s.stack)), Rest(s.stack);
    var v, st2 := Top(st1), Rest(st1);
    match Access(call.host, s.memory, offset, 32)
    case None => Halted(s.(stack := st2), Panicked)
    case Some(grown) =>
      Running(s.(stack := st2, memory := Write(grown, offset, Pad32(v))))
  }

  function ExecMstore8(call: Call, s: State): Status {
    var offset, st1 := Low64(Top(s.stack)), Rest(s.stack);
    var v, st2 := Top(st1), Rest(st1);
    match Access(call.host, s.memory, offset, 1)
    case None => Halted(s.(stack := st2), Panicked)
    case Some(grown) =>
      Running(s.(stack := st2, memory := Write(grown, offset, [Low64(v) % 256])))
  }

  /** Storage keys are the hashes of the 32-byte form of the word. */
  function StorageKey(host: Host, key: Word): Hash { host.sha256(Pad32(key)) }

  /** A zero is stored as one zero byte. */
  function StoredBytes(v: Word): seq<Byte> {
    if BytesOf(v) == [] then [0] else BytesOf(v)
  }

  function ExecSload(call: Call, s: State): Status {
    var st := Rest(s.stack);
    match GetAccountState(s.world, call.contract, StorageKey(call.host, Top(s.stack)))
    case None => Running(s.(stack := Push(st, 0)))
    case Some(value) =>
      Running(s.(stack := Push(st, if value == [] then 0 else FromBytes(value))))
  }

  function ExecSstore(call: Call, s: State): Status {
    var key, st1 := Top(s.stack), Rest(s.stack);
    var v, st2 := Top(st1), Rest(st1);
    var w := SetAccountState(s.world, call.contract, StorageKey(call.host, key), StoredBytes(v));
    Running(s.(stack := st2, world := w))
  }

  /** 32 zero bytes with the tail of the call data copied over them. */
  function DataWord(callData: seq<Byte>, offset: nat): (r: seq<Byte>)
    ensures |r| == 32
  {
    if offset < |callData| then Resize(callData[offset..], 32) else Zeros(32)
  }

  function ExecCallDataLoad(call: Call, s: State): Status {
    var offset := Low64(Top(s.stack));
    Running(s.(stack := Push(Rest(s.stack), FromBytes(DataWord(call.callData, offset)))))
  }

  predicate ValidJumpDest(code: seq<Byte>, dest: nat) {
    dest < |code| && code[dest] == JUMPDEST
  }

  function ExecJump(call: Call, s: State): Status {
    var dest, st := Low64(Top(s.stack)), Rest(s.stack);
    if ValidJumpDest(call.code, dest) then Running(s.(stack := st, pc := dest))
    else Halted(s.(stack := st), Failed(InvalidJump(dest)))
  }

  function ExecJumpi(call: Call, s: State): Status {
    var dest, st1 := Low64(Top(s.stack)), Rest(s.stack);
    var cond, st2 := Top(st1), Rest(st1);
    if cond == 0 then Running(s.(stack := st2))
    else if ValidJumpDest(call.code, dest) then Running(s.(stack := st2, pc := dest))
    else Halted(s.(stack := st2), Failed(InvalidJump(dest)))
  }

  function ExecExit(call: Call, op: Byte, s: State): Status
    requires op == RETURN || op == REVERT
  {
    var offset, st1 := Low64(Top(s.stack)), Rest(s.stack);
    var size, st2 := Low64(Top(st1)), Rest(st1);
    match Access(call.host, s.memory, offset, size)
    case None => Halted(s.(stack := st2), Panicked)
    case Some(grown) =>
      var data := grown[offset..offset + size];
      Halted(s.(stack := st2, memory := grown),
             if op == RETURN then Returned(data) else Failed(Reverted(data)))
  }

  function Exec(call: Call, op: Byte, s: State): Status
    requires s.pc <= |call.code|
  {
    if PUSH1 <= op <= PUSH32 then ExecPush(call, op - PUSH1 + 1, s)
    else if DUP1 <= op <= DUP16 then ExecDup(op - DUP1 + 1, s)
    else if SWAP1 <= op <= SWAP16 then ExecSwap(op - SWAP1 + 1, s)
    else if op == POP then Running(s.(stack := Rest(s.stack)))
    else if IsBinary(op) then ExecBinary(op, s)
    else if op == ISZERO then ExecIsZero(s)
    else if op == SHA3 then ExecSha3(call, s)
    else if op == MLOAD then ExecMload(call, s)
    else if op == MSTORE then ExecMstore(call, s)
    else if op == MSTORE8 then ExecMstore8(call, s)
    else if op == SLOAD then ExecSload(call, s)
    else if op == SSTORE then ExecSstore(call, s)
    else if op == CALLVALUE then Running(s.(stack := Push(s.stack, call.value)))
    else if op == CALLDATALOAD then ExecCallDataLoad(call, s)
    else if op == CALLDATASIZE then Running(s.(stack := Push(s.stack, |call.callData|)))
    else if op == JUMP then ExecJump(call, s)
    else if op == JUMPI then ExecJumpi(call, s)
    else if op == RETURN || op == REVERT then ExecExit(call, op, s)
    else if op == STOP then Halted(s, Returned([]))
    else Running(s)
  }

  function Charged(s: State): State {
    s.(gasUsed := (s.gasUsed + 1) % TWO64, pc := s.pc + 1)
  }

  /** One turn of the loop. The gas check adds in uint64, so it wraps at the top. */
  function Step(call: Call, s: State): Status {
    if s.pc >= |call.code| then Halted(s, Returned([]))
    else if (s.gasUsed + 1) % TWO64 > call.gasLimit then Halted(s, Failed(OutOfGas))
    else Exec(call, call.code[s.pc], Charged(s))
  }

  // ---- runs ----------------------------------------------------------------------------

  function RunFor(call: Call, s: State, n: nat): Status
    decreases n
  {
    if n == 0 then Running(s)
    else
      match Step(call, s)
      case Running(s') => RunFor(call, s', n - 1)
      case Halted(_, _) => Step(call, s)
  }

  ghost predicate Halts(call: Call, s: State) {
    exists n: nat :: RunFor(call, s, n).Halted?
  }

  /** The end of the run; a run that never ends is `Running` in the state it started from. */
  ghost function Run(call: Call, s: State): Status {
    if Halts(call, s) then
      var n: nat :| RunFor(call, s, n).Halted?;
      RunFor(call, s, n)
    else Running(s)
  }

  lemma {:induction false} RunForMonotone(call: Call, s: State, n: nat, m: nat)
    requires n <= m
    requires RunFor(call, s, n).Halted?
    ensures RunFor(call, s, m) == RunFor(call, s, n)
    decreases n
  {
    hide Step;
    if n == 0 || Step(call, s).Halted? {
    } else {
      RunForMonotone(call, Step(call, s).s, n - 1, m - 1);
    }
  }

  /** Any number of steps that reaches the end reaches the same end. */
  lemma RunIs(call: Call, s: State, n: nat)
    requires RunFor(call, s, n).Halted?
    ensures Halts(call, s)
    ensures Run(call, s) == RunFor(call, s, n)
  {
    var m: nat :| RunFor(call, s, m).Halted? && Run(call, s) == RunFor(call, s, m);
    if m <= n {
      RunForMonotone(call, s, m, n);
    } else {
      RunForMonotone(call, s, n, m);
    }
  }
}
