/** Safety, termination and gas laws of the contract interpreter. */
module MachineRuns {
  import opened Basics
  import opened Types
  import opened Accounts
  import opened Machine

  // ---- memory ------------------------------------------------------------------

  function RoundUp32(n: nat): nat { (n + 31) / 32 * 32 }

  /** Exactly when a memory access panics. */
  predicate AccessPanics(host: Host, length: nat, offset: U64, size: U64) {
    if size == 0 then offset > length
    else
      || offset + size + 31 >= TWO64
      || (offset + size > length && RoundUp32(offset + size) > host.allocLimit)
  }

  lemma AccessWraps(host: Host, store: seq<Byte>, offset: U64, size: U64)
    requires |store| <= host.allocLimit
    requires size > 0 && offset + size + 31 >= TWO64
    ensures Access(host, store, offset, size).None?
  {
    if offset + size >= TWO64 {
      assert (offset + size) % TWO64 < offset;
    } else {
      assert (offset + size + 31) % TWO64 / 32 * 32 == 0;
    }
  }

  lemma AccessFits(host: Host, store: seq<Byte>, offset: U64, size: U64)
    requires size > 0 && offset + size + 31 < TWO64
    ensures Access(host, store, offset, size)
            == if offset + size <= |store| then Some(store)
               else if RoundUp32(offset + size) > host.allocLimit then None
               else Some(Resize(store, RoundUp32(offset + size)))
  {
    assert (offset + size) % TWO64 == offset + size;
    assert (offset + size + 31) % TWO64 == offset + size + 31;
  }

  lemma AccessExact(host: Host, store: seq<Byte>, offset: U64, size: U64)
    requires |store| <= host.allocLimit
    ensures Access(host, store, offset, size).None?
            <==> AccessPanics(host, |store|, offset, size)
    ensures Access(host, store, offset, size).Some? ==>
              Access(host, store, offset, size).value
              == if size == 0 || offset + size <= |store| then store
                 else Resize(store, RoundUp32(offset + size))
  {
    if size > 0 {
      hide Access;
      if offset + size + 31 >= TWO64 {
        AccessWraps(host, store, offset, size);
      } else {
        AccessFits(host, store, offset, size);
      }
    }
  }

  // ---- what every step keeps -------------------------------------------------------

  ghost predicate WellFormed(call: Call, s: State) {
    && s.pc <= |call.code|
    && |s.memory| % 32 == 0
    && |s.memory| <= call.host.allocLimit
  }

  /** What one instruction may do to a state. */
  ghost predicate Bounded(call: Call, s: State, s': State) {
    && s'.pc <= |call.code|
    && |s'.memory| % 32 == 0
    && |s.memory| <= |s'.memory| <= call.host.allocLimit
    && |s'.stack| <= |s.stack| + 1
    && s'.gasUsed == s.gasUsed
    && OnlyStorageOf(call.contract, s.world, s'.world)
  }

  lemma OnlyStorageRefl(c: Address, w: World)
    ensures OnlyStorageOf(c, w, w)
  {}

  lemma OnlyStorageTrans(c: Address, w0: World, w1: World, w2: World)
    requires OnlyStorageOf(c, w0, w1) && OnlyStorageOf(c, w1, w2)
    ensures OnlyStorageOf(c, w0, w2)
  {}

  lemma AccessBounded(call: Call, s: State, offset: U64, size: U64)
    requires WellFormed(call, s)
    ensures var r := Access(call.host, s.memory, offset, size);
            r.Some? ==> && |r.value| % 32 == 0
                        && |s.memory| <= |r.value| <= call.host.allocLimit
  {
    AccessExact(call.host, s.memory, offset, size);
  }

  lemma ExecMemoryBounded(call: Call, op: Byte, s: State)
    requires WellFormed(call, s)
    requires op in {SHA3, MLOAD, MSTORE, MSTORE8, RETURN, REVERT}
    ensures Bounded(call, s, Exec(call, op, s).s)
  {
    hide Access, OnlyStorageOf;
    OnlyStorageRefl(call.contract, s.world);
    var offset := Low64(Top(s.stack));
    AccessBounded(call, s, offset, Low64(Top(Rest(s.stack))));
    AccessBounded(call, s, offset, 32);
    AccessBounded(call, s, offset, 1);
  }

  lemma ExecBounded(call: Call, op: Byte, s: State)
    requires WellFormed(call, s)
    ensures Bounded(call, s, Exec(call, op, s).s)
  {
    hide Access;
    if op in {SHA3, MLOAD, MSTORE, MSTORE8, RETURN, REVERT} {
      ExecMemoryBounded(call, op, s);
    } else {
      OnlyStorageRefl(call.contract, s.world);
    }
  }

  lemma StepWellFormed(call: Call, s: State)
    requires WellFormed(call, s)
    ensures WellFormed(call, Step(call, s).s)
  {
    hide Exec;
    if s.pc < |call.code| {
      ExecBounded(call, call.code[s.pc], Charged(s));
    }
  }

  /** The memory range an instruction touches, from the stack it finds. */
  function Touches(op: Byte, stack: seq<Word>): Option<(U64, U64)> {
    var x, y := Low64(Top(stack)), Low64(Top(Rest(stack)));
    if op in {SHA3, RETURN, REVERT} then Some((x, y))
    else if op in {MLOAD, MSTORE} then Some((x, 32))
    else if op == MSTORE8 then Some((x, 1))
    else None
  }

  /** A step panics exactly when it is affordable and touches memory that cannot be had. */
  lemma PanicsExact(call: Call, s: State)
    requires WellFormed(call, s)
    ensures var r := Step(call, s);
            r.Halted? && r.outcome.Panicked?
            <==> && s.pc < |call.code|
                 && (s.gasUsed + 1) % TWO64 <= call.gasLimit
                 && var t := Touches(call.code[s.pc], s.stack);
                    t.Some? && AccessPanics(call.host, |s.memory|, t.value.0, t.value.1)
  {
    hide Access, AccessPanics;
    if s.pc < |call.code| {
      var t := Touches(call.code[s.pc], s.stack);
      if t.Some? {
        AccessExact(call.host, s.memory, t.value.0, t.value.1);
      }
    }
  }

  // ---- gas counts instructions -----------------------------------------------------

  /** The next turn executes an instruction: there is one and the limit covers it. */
  predicate Executes(call: Call, s: State) {
    s.pc < |call.code| && (s.gasUsed + 1) % TWO64 <= call.gasLimit
  }

  /** Instructions executed in the first `n` turns. */
  function Instructions(call: Call, s: State, n: nat): nat
    decreases n
  {
    if n == 0 || !Executes(call, s) then 0
    else
      match Step(call, s)
      case Running(s') => 1 + Instructions(call, s', n - 1)
      case Halted(_, _) => 1
  }

  lemma ExecKeepsGas(call: Call, op: Byte, s: State)
    requires s.pc <= |call.code|
    ensures Exec(call, op, s).s.gasUsed == s.gasUsed
  {}

  lemma StepCharge(call: Call, s: State)
    ensures Step(call, s).s.gasUsed
            == if Executes(call, s) then (s.gasUsed + 1) % TWO64 else s.gasUsed
    ensures Step(call, s).Running? ==> Executes(call, s)
  {
    hide Exec;
    if Executes(call, s) {
      ExecKeepsGas(call, call.code[s.pc], Charged(s));
    }
  }

  lemma ModAdd(x: nat, y: nat)
    ensures (x % TWO64 + y) % TWO64 == (x + y) % TWO64
  {}

  /** Under every limit, at every moment and at the end, the gas used is the number of instructions
      executed, as a uint64. */
  lemma {:induction false} RunForCharge(call: Call, s: State, n: nat)
    ensures RunFor(call, s, n).s.gasUsed == (s.gasUsed + Instructions(call, s, n)) % TWO64
    decreases n
  {
    hide Step, Executes;
    if n == 0 {
    } else {
      StepCharge(call, s);
      if Step(call, s).Running? {
        RunForCharge(call, Step(call, s).s, n - 1);
        ModAdd(s.gasUsed + 1, Instructions(call, Step(call, s).s, n - 1));
      }
    }
  }

  lemma {:induction false} InstructionsFit(call: Call, s: State, n: nat)
    requires s.gasUsed <= call.gasLimit < TWO64 - 1
    ensures s.gasUsed + Instructions(call, s, n) <= call.gasLimit
    decreases n
  {
    hide Step;
    if n == 0 {
    } else {
      StepCharge(call, s);
      if Step(call, s).Running? {
        InstructionsFit(call, Step(call, s).s, n - 1);
      }
    }
  }

  lemma ChargeCounts(call: Call, w: World, k: nat)
    requires call.gasLimit < TWO64 - 1
    ensures RunFor(call, Start(w), k).s.gasUsed == Instructions(call, Start(w), k)
  {
    hide Instructions, RunFor;
    RunForCharge(call, Start(w), k);
    InstructionsFit(call, Start(w), k);
  }

  /** A run that goes on for `k` turns executes an instruction in each; one more turn is one more
      step. */
  lemma {:induction false} OneMoreTurn(call: Call, s: State, k: nat)
    requires RunFor(call, s, k).Running?
    ensures Instructions(call, s, k) == k
    ensures RunFor(call, s, k + 1) == Step(call, RunFor(call, s, k).s)
    decreases k
  {
    hide Step, Executes;
    StepCharge(call, s);
    if k == 0 {
      assert RunFor(call, s, 1) == Step(call, s);
    } else {
      OneMoreTurn(call, Step(call, s).s, k - 1);
    }
  }

  /** Everything the loop keeps, for a run started at `s0` and `n` instructions later. */
  ghost predicate Kept(call: Call, s0: State, n: nat, s: State) {
    && WellFormed(call, s)
    && s.gasUsed == n
    && |s.stack| <= n
    && n <= call.gasLimit
    && OnlyStorageOf(call.contract, s0.world, s.world)
  }

  lemma BoundedKeeps(call: Call, s0: State, n: nat, s: State, s': State)
    requires Kept(call, s0, n, s)
    requires n + 1 <= call.gasLimit < TWO64 - 1
    requires Bounded(call, s.(gasUsed := n + 1, pc := s.pc + 1), s')
    ensures Kept(call, s0, n + 1, s')
  {
    OnlyStorageTrans(call.contract, s0.world, s.world, s'.world);
  }

  lemma StepKept(call: Call, s0: State, n: nat, s: State)
    requires call.gasLimit < TWO64 - 1
    requires Kept(call, s0, n, s)
    ensures var r := Step(call, s);
            && (r.Running? ==> Kept(call, s0, n + 1, r.s))
            && (r.Halted? ==> Kept(call, s0, n, r.s) || Kept(call, s0, n + 1, r.s))
  {
    hide Exec;
    if s.pc < |call.code| && n + 1 <= call.gasLimit {
      ExecBounded(call, call.code[s.pc], s.(gasUsed := n + 1, pc := s.pc + 1));
      BoundedKeeps(call, s0, n, s, Step(call, s).s);
    }
  }

  lemma {:induction false} RunForKept(call: Call, s0: State, n: nat, s: State, k: nat)
    requires call.gasLimit < TWO64 - 1
    requires Kept(call, s0, n, s)
    ensures var r := RunFor(call, s, k);
            if r.Running? then Kept(call, s0, n + k, r.s)
            else exists m: nat :: n <= m <= n + k && Kept(call, s0, m, r.s)
    decreases k
  {
    hide Step;
    if k == 0 {
    } else {
      StepKept(call, s0, n, s);
      var r := Step(call, s);
      if r.Running? {
        RunForKept(call, s0, n + 1, r.s, k - 1);
      } else if Kept(call, s0, n, r.s) {
      } else {
        assert Kept(call, s0, n + 1, r.s);
      }
    }
  }

  /** Every state a run passes through, its last included: gas counts the instructions executed and
      stays within the limit, the stack is no deeper than that count, pc stays in the code, memory is
      whole words. */
  lemma RunSafe(call: Call, w: World, k: nat)
    requires call.gasLimit < TWO64 - 1
    ensures var r := RunFor(call, Start(w), k);
            && WellFormed(call, r.s)
            && r.s.gasUsed == Instructions(call, Start(w), k)
            && (r.Running? ==> r.s.gasUsed == k)
            && |r.s.stack| <= r.s.gasUsed <= call.gasLimit
            && r.s.gasUsed <= k
            && OnlyStorageOf(call.contract, w, r.s.world)
  {
    OnlyStorageRefl(call.contract, w);
    hide Instructions, RunFor, OnlyStorageOf;
    RunForKept(call, Start(w), 0, Start(w), k);
    ChargeCounts(call, w, k);
  }

  lemma ExecStorage(call: Call, op: Byte, s: State)
    requires s.pc <= |call.code|
    ensures OnlyStorageOf(call.contract, s.world, Exec(call, op, s).s.world)
  {
    OnlyStorageRefl(call.contract, s.world);
  }

  lemma {:induction false} RunForStorage(call: Call, s: State, n: nat)
    ensures OnlyStorageOf(call.contract, s.world, RunFor(call, s, n).s.world)
    decreases n
  {
    hide Exec;
    OnlyStorageRefl(call.contract, s.world);
    if n == 0 || !Executes(call, s) {
    } else {
      ExecStorage(call, call.code[s.pc], Charged(s));
      var r := Step(call, s);
      if r.Running? {
        RunForStorage(call, r.s, n - 1);
        OnlyStorageTrans(call.contract, s.world, r.s.world, RunFor(call, s, n).s.world);
      }
    }
  }

  /** Whatever its end and its gas limit, a run touches nothing but its contract's storage. */
  lemma RunTouchesStorageOnly(call: Call, w: World)
    ensures OnlyStorageOf(call.contract, w, Run(call, Start(w)).s.world)
  {
    OnlyStorageRefl(call.contract, w);
    if Halts(call, Start(w)) {
      var n: nat :| RunFor(call, Start(w), n).Halted?;
      RunIs(call, Start(w), n);
      RunForStorage(call, Start(w), n);
    }
  }

  // ---- termination -------------------------------------------------------------------

  /** Below the top gas limit a run ends after at most one step more than the limit. */
  lemma RunHalts(call: Call, w: World)
    requires call.gasLimit < TWO64 - 1
    ensures RunFor(call, Start(w), call.gasLimit + 1).Halted?
    ensures Halts(call, Start(w))
  {
    RunSafe(call, w, call.gasLimit + 1);
    RunIs(call, Start(w), call.gasLimit + 1);
  }

  /** JUMPDEST; PUSH1 0; JUMP. */
  const LOOP: seq<Byte> := [JUMPDEST, PUSH1, 0, JUMP]

  ghost predicate Looping(s: State) {
    || (s.pc == 0 && s.stack == [])
    || (s.pc == 1 && s.stack == [])
    || (s.pc == 3 && s.stack == [0])
  }

  lemma LoopStep(call: Call, s: State)
    requires call.gasLimit == TWO64 - 1 && call.code == LOOP
    requires Looping(s)
    ensures Step(call, s).Running? && Looping(Step(call, s).s)
  {
    if s.pc == 1 {
      assert call.code[2..3] == [0];
      assert FromBytes([0]) == 0;
      assert Step(call, s) == ExecPush(call, 1, Charged(s));
    } else if s.pc == 0 {
      assert Step(call, s) == Running(Charged(s));
    } else {
      assert Step(call, s) == ExecJump(call, Charged(s));
    }
  }

  lemma {:induction false} LoopForever(call: Call, s: State, n: nat)
    requires call.gasLimit == TWO64 - 1 && call.code == LOOP
    requires Looping(s)
    ensures RunFor(call, s, n).Running?
    decreases n
  {
    hide Step, Looping;
    if n == 0 {
    } else {
      LoopStep(call, s);
      LoopForever(call, Step(call, s).s, n - 1);
    }
  }

  /** A gas limit makes all code terminate exactly when it is below 2^64 - 1. */
  lemma TerminationExact(host: Host, contract: Address, w: World, limit: U64)
    ensures (forall code, data, value ::
               Halts(Call(host, code, data, contract, value, limit), Start(w)))
            <==> limit < TWO64 - 1
  {
    if limit < TWO64 - 1 {
      forall code, data, value
        ensures Halts(Call(host, code, data, contract, value, limit), Start(w))
      {
        RunHalts(Call(host, code, data, contract, value, limit), w);
      }
    } else {
      var call := Call(host, LOOP, [], contract, 0, limit);
      forall n: nat ensures RunFor(call, Start(w), n).Running? {
        LoopForever(call, Start(w), n);
      }
      assert !Halts(call, Start(w));
    }
  }

  // ---- panics ----------------------------------------------------------------------------

  predicate Panics(r: Status) { r.Halted? && r.outcome.Panicked? }

  /** PUSH1 1; RETURN: an empty range past the end of an empty memory. */
  const CRASH: seq<Byte> := [PUSH1, 1, RETURN]

  lemma CrashPanics(call: Call, w: World)
    requires call.code == CRASH && call.gasLimit >= 2
    ensures Panics(Run(call, Start(w)))
  {
    assert call.code[1..2] == [1];
    assert FromBytes([1]) == 1;
    var s := Step(call, Start(w)).s;
    assert Step(call, Start(w)) == ExecPush(call, 1, Charged(Start(w)));
    assert s.stack == [1] && s.pc == 2 && s.memory == [];
    PanicsExact(call, s);
    assert RunFor(call, Start(w), 2) == Step(call, s);
    RunIs(call, Start(w), 2);
  }

  /** MLOAD of the first word, where not even that can be had. */
  lemma LoadPanics(call: Call, w: World)
    requires call.code == [MLOAD] && call.gasLimit >= 1 && call.host.allocLimit < 32
    ensures Panics(Run(call, Start(w)))
  {
    PanicsExact(call, Start(w));
    assert RunFor(call, Start(w), 1) == Step(call, Start(w));
    RunIs(call, Start(w), 1);
  }

  /** One instruction on an empty stack reaches no further than the first word of memory. */
  lemma OneStepSafe(call: Call, w: World)
    requires call.gasLimit == 0 || (call.gasLimit == 1 && call.host.allocLimit >= 32)
    ensures !Panics(Run(call, Start(w)))
  {
    hide Exec, Access;
    var n := call.gasLimit + 1;
    RunHalts(call, w);
    RunIs(call, Start(w), n);
    PanicsExact(call, Start(w));
    var r := Step(call, Start(w));
    if n == 2 && r.Running? {
      StepCharge(call, Start(w));
      assert RunFor(call, Start(w), 2) == Step(call, r.s);
    }
  }

  /** A gas limit keeps all code from panicking exactly when it pays for no instruction, or for one
      and a word of memory can be had. */
  lemma PanicLimitExact(host: Host, contract: Address, w: World, limit: U64)
    ensures (forall code, data, value ::
               !Panics(Run(Call(host, code, data, contract, value, limit), Start(w))))
            <==> limit == 0 || (limit == 1 && host.allocLimit >= 32)
  {
    hide Run;
    if limit == 0 || (limit == 1 && host.allocLimit >= 32) {
      forall code, data, value
        ensures !Panics(Run(Call(host, code, data, contract, value, limit), Start(w)))
      {
        OneStepSafe(Call(host, code, data, contract, value, limit), w);
      }
    } else if limit >= 2 {
      CrashPanics(Call(host, CRASH, [], contract, 0, limit), w);
    } else {
      LoadPanics(Call(host, [MLOAD], [], contract, 0, limit), w);
    }
  }

  // ---- gas limits ----------------------------------------------------------------------

  lemma ExecIgnoresLimit(call: Call, limit: U64, op: Byte, s: State)
    requires s.pc <= |call.code|
    ensures Exec(call.(gasLimit := limit), op, s) == Exec(call, op, s)
  {}

  predicate EndsOutOfGas(r: Status) {
    r.Halted? && r.outcome == Failed(OutOfGas)
  }

  /** The charge of a finished run: one per turn, except that a last turn which found no instruction
      or no gas is free. A run that ends out of gas has used exactly its limit. */
  lemma FinalCharge(call: Call, w: World, k: nat)
    requires RunFor(call, Start(w), k).Running? && RunFor(call, Start(w), k + 1).Halted?
    ensures var s, r := RunFor(call, Start(w), k).s, RunFor(call, Start(w), k + 1);
            && r.s.gasUsed == (if Executes(call, s) then k + 1 else k) % TWO64
            && (EndsOutOfGas(r) ==> r.s.gasUsed == call.gasLimit == k)
  {
    hide Step, Exec, Instructions;
    var s := RunFor(call, Start(w), k).s;
    OneMoreTurn(call, Start(w), k);
    RunForCharge(call, Start(w), k);
    StepCharge(call, s);
    ModAdd(k, 1);
    if EndsOutOfGas(RunFor(call, Start(w), k + 1)) {
      EndOfGas(call, s);
      RunSafe(call, w, k);
    }
  }

  lemma ExecHasGas(call: Call, op: Byte, s: State)
    requires s.pc <= |call.code|
    ensures !EndsOutOfGas(Exec(call, op, s))
  {}

  lemma EndOfGas(call: Call, s: State)
    requires EndsOutOfGas(Step(call, s))
    ensures !Executes(call, s) && call.gasLimit < TWO64 - 1
    ensures s.gasUsed >= call.gasLimit
  {
    hide Exec;
    if Executes(call, s) {
      ExecHasGas(call, call.code[s.pc], Charged(s));
    }
  }

  /** A step that is not out of gas is the same step under any limit that covers it. */
  lemma StepUnderLimit(call: Call, limit: U64, s: State)
    requires !EndsOutOfGas(Step(call, s))
    requires s.pc < |call.code| ==> (s.gasUsed + 1) % TWO64 <= limit
    ensures Step(call.(gasLimit := limit), s) == Step(call, s)
  {
    hide Exec;
    if s.pc < |call.code| {
      ExecIgnoresLimit(call, limit, call.code[s.pc], Charged(s));
    }
  }

  lemma {:induction false} RunForMoreGas(call: Call, limit: U64, s: State, n: nat)
    requires call.gasLimit <= limit
    requires !EndsOutOfGas(RunFor(call, s, n))
    ensures RunFor(call.(gasLimit := limit), s, n) == RunFor(call, s, n)
    decreases n
  {
    hide Exec;
    if n == 0 {
    } else {
      StepUnderLimit(call, limit, s);
      if Step(call, s).Running? {
        RunForMoreGas(call, limit, Step(call, s).s, n - 1);
      }
    }
  }

  /** More gas changes nothing about a run that had enough: same end, same state, same charge. */
  lemma MoreGas(call: Call, limit: U64, w: World)
    requires call.gasLimit <= limit
    requires Halts(call, Start(w))
    requires !EndsOutOfGas(Run(call, Start(w)))
    ensures Halts(call.(gasLimit := limit), Start(w))
    ensures Run(call.(gasLimit := limit), Start(w)) == Run(call, Start(w))
  {
    var n: nat :| RunFor(call, Start(w), n).Halted?;
    RunIs(call, Start(w), n);
    RunForMoreGas(call, limit, Start(w), n);
    RunIs(call.(gasLimit := limit), Start(w), n);
  }

  /** A step at the end of the code is free, any other costs one. */
  lemma StepGas(call: Call, s: State)
    requires s.gasUsed <= call.gasLimit < TWO64 - 1
    requires !EndsOutOfGas(Step(call, s))
    ensures if s.pc < |call.code|
            then Step(call, s).s.gasUsed == s.gasUsed + 1 <= call.gasLimit
            else Step(call, s) == Halted(s, Returned([]))
  {
    hide Exec;
    if s.pc < |call.code| {
      ExecKeepsGas(call, call.code[s.pc], s.(gasUsed := s.gasUsed + 1, pc := s.pc + 1));
    }
  }

  lemma {:induction false} GasGrows(call: Call, s: State, n: nat)
    requires s.gasUsed <= call.gasLimit < TWO64 - 1
    requires !EndsOutOfGas(RunFor(call, s, n))
    ensures s.gasUsed <= RunFor(call, s, n).s.gasUsed
    decreases n
  {
    hide Step;
    if n == 0 {
    } else {
      StepGas(call, s);
      if Step(call, s).Running? {
        GasGrows(call, Step(call, s).s, n - 1);
      }
    }
  }

  /** A run under another limit: the same if the limit covers its charge, out of gas if not. */
  lemma {:induction false} RunForOtherLimit(call: Call, limit: U64, s: State, n: nat)
    requires s.gasUsed <= call.gasLimit < TWO64 - 1
    requires s.gasUsed <= limit
    requires RunFor(call, s, n).Halted?
    requires !EndsOutOfGas(RunFor(call, s, n))
    ensures var r, r' := RunFor(call, s, n), RunFor(call.(gasLimit := limit), s, n);
            if r.s.gasUsed <= limit then r' == r else EndsOutOfGas(r')
    decreases n
  {
    hide Exec;
    StepGas(call, s);
    var r, call' := Step(call, s), call.(gasLimit := limit);
    if s.pc < |call.code| && s.gasUsed + 1 > limit {
      assert EndsOutOfGas(Step(call', s));
      if r.Running? {
        GasGrows(call, r.s, n - 1);
      }
    } else {
      StepUnderLimit(call, limit, s);
      if r.Running? {
        RunForOtherLimit(call, limit, r.s, n - 1);
      }
    }
  }

  /** The charge of a run is the least limit that suffices for it: every limit from there on gives
      the same run, every smaller one ends out of gas. */
  lemma ChargeIsThreshold(call: Call, limit: U64, w: World)
    requires call.gasLimit < TWO64 - 1
    requires !EndsOutOfGas(Run(call, Start(w)))
    ensures var r, r' := Run(call, Start(w)), Run(call.(gasLimit := limit), Start(w));
            if r.s.gasUsed <= limit then r' == r else EndsOutOfGas(r')
  {
    RunHalts(call, w);
    var n := call.gasLimit + 1;
    RunIs(call, Start(w), n);
    RunForOtherLimit(call, limit, Start(w), n);
    RunIs(call.(gasLimit := limit), Start(w), n);
  }
}
