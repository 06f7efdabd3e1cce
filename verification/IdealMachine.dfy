/** A clean machine for the same instruction set, and the proof that the interpreter implements it.
    Memory is an endless zero-filled byte map, storage a total map on words, the stack is listed
    from the top and reads zero below its bottom. Each column of the instruction table (words taken,
    words given, memory, storage, next pc, end) is one function. Nothing here grows or panics. */
module IdealMachine {
  import opened Basics
  import opened Types
  import opened Accounts
  import opened Machine
  import opened MachineRuns

  datatype Ideal = Ideal(
    pc: nat,
    stack: seq<Word>,      // top is first
    memory: imap<nat, Byte>,
    storage: imap<Word, Word>,
    gasUsed: U64)

  datatype Progress = Going(a: Ideal) | Ended(a: Ideal, outcome: Outcome)

  ghost predicate Total(a: Ideal) {
    && (forall i: nat :: i in a.memory)
    && (forall k: Word :: k in a.storage)
  }

  function Arg(stack: seq<Word>, i: nat): Word { if i < |stack| then stack[i] else 0 }

  function Drop(stack: seq<Word>, k: nat): seq<Word> {
    if k <= |stack| then stack[k..] else []
  }

  ghost function Read(memory: imap<nat, Byte>, offset: nat, size: nat): (r: seq<Byte>)
    requires forall i: nat :: i in memory
    ensures |r| == size
  {
    seq(size, i requires 0 <= i < size => memory[offset + i])
  }

  function Flag(b: bool): Word { if b then 1 else 0 }

  // The table names instructions by their byte.

  /** ADD MUL SUB DIV LT GT EQ AND OR. */
  predicate TwoOperands(op: Byte) {
    op in {0x01, 0x02, 0x03, 0x04, 0x10, 0x11, 0x14, 0x16, 0x17}
  }

  /** Words an instruction removes. */
  function Takes(op: Byte): nat {
    if 0x90 <= op <= 0x9f then op - 0x90 + 2
    else if TwoOperands(op) then 2
    else if op in {0x20, 0x52, 0x53, 0x55, 0x57, 0xf3, 0xfd} then 2
    else if op in {0x50, 0x15, 0x51, 0x54, 0x35, 0x56} then 1
    else 0
  }

  /** The 256-bit meaning of the two-operand instructions. */
  function Arith(op: Byte, x: Word, y: Word): Word {
    if op == 0x01 then (x + y) % TWO256
    else if op == 0x03 then (if x >= y then x - y else TWO256 + x - y)
    else if op == 0x02 then (x * y) % TWO256
    else if op == 0x04 then (if y == 0 then 0 else DivLe(x, y); x / y)
    else if op == 0x14 then Flag(x == y)
    else if op == 0x10 then Flag(x < y)
    else if op == 0x11 then Flag(y < x)
    else if op == 0x16 then BitAnd(x, y) % TWO256
    else BitOr(x, y) % TWO256
  }

  /** The byte of the call data at `i`, zero past its end. */
  function DataByte(callData: seq<Byte>, i: nat): Byte {
    if i < |callData| then callData[i] else 0
  }

  function DataBytes(callData: seq<Byte>, offset: nat): (r: seq<Byte>)
    ensures |r| == 32
  {
    seq<Byte>(32, i requires 0 <= i < 32 => DataByte(callData, offset + i))
  }

  /** Words an instruction puts on the stack, top first. */
  ghost function Gives(call: Call, op: Byte, a: Ideal): seq<Word>
    requires Total(a)
  {
    var x, y := Arg(a.stack, 0), Arg(a.stack, 1);
    if 0x60 <= op <= 0x7f then
      var size := op - 0x60 + 1;
      if a.pc + 1 + size <= |call.code|
      then [FromBytes(call.code[a.pc + 1..a.pc + 1 + size]) % TWO256] else []
    else if 0x80 <= op <= 0x8f then [Arg(a.stack, op - 0x80)]
    else if 0x90 <= op <= 0x9f then
      var n := op - 0x90 + 1;
      if n < |a.stack| then [a.stack[n]] + a.stack[1..n] + [a.stack[0]] else []
    else if TwoOperands(op) then [Arith(op, x, y)]
    else if op == 0x15 then [Flag(x == 0)]
    else if op == 0x20 then [call.host.keccak256(Read(a.memory, x % TWO64, y % TWO64))]
    else if op == 0x51 then [FromBytes(Read(a.memory, x % TWO64, 32)) % TWO256]
    else if op == 0x54 then [a.storage[x]]
    else if op == 0x34 then [call.value % TWO256]
    else if op == 0x35 then [FromBytes(DataBytes(call.callData, x % TWO64)) % TWO256]
    else if op == 0x36 then [|call.callData| % TWO256]
    else []
  }

  /** MSTORE spells its word in base 256, most significant digit first. */
  ghost function MemoryAfter(op: Byte, a: Ideal): imap<nat, Byte>
    requires Total(a)
  {
    var at, v := Arg(a.stack, 0) % TWO64, Arg(a.stack, 1);
    if op == 0x52 then
      imap i: nat | true ::
        if at <= i < at + 32 then v / Pow256(31 - (i - at)) % 256 else a.memory[i]
    else if op == 0x53 then a.memory[at := v % 256]
    else a.memory
  }

  ghost function StorageAfter(op: Byte, a: Ideal): imap<Word, Word> {
    if op == 0x55 then a.storage[Arg(a.stack, 0) := Arg(a.stack, 1)] else a.storage
  }

  predicate Jumps(op: Byte, stack: seq<Word>) {
    op == 0x56 || (op == 0x57 && Arg(stack, 1) != 0)
  }

  function NextPc(op: Byte, a: Ideal): nat {
    if 0x60 <= op <= 0x7f then a.pc + 1 + (op - 0x60 + 1)
    else if Jumps(op, a.stack) then Arg(a.stack, 0) % TWO64
    else a.pc + 1
  }

  /** How the instruction ends the run, if it does. */
  ghost function End(call: Call, op: Byte, a: Ideal): Option<Outcome>
    requires Total(a)
  {
    var x, y := Arg(a.stack, 0), Arg(a.stack, 1);
    if 0x60 <= op <= 0x7f && NextPc(op, a) > |call.code| then Some(Failed(PushOutOfBounds))
    else if 0x80 <= op <= 0x8f && op - 0x80 >= |a.stack| then Some(Failed(DupOutOfBounds))
    else if 0x90 <= op <= 0x9f && op - 0x90 + 1 >= |a.stack| then Some(Failed(SwapOutOfBounds))
    else if Jumps(op, a.stack) && !(x % TWO64 < |call.code| && call.code[x % TWO64] == 0x5b)
    then Some(Failed(InvalidJump(x % TWO64)))
    else if op == 0x00 then Some(Returned([]))
    else if op == 0xf3 then Some(Returned(Read(a.memory, x % TWO64, y % TWO64)))
    else if op == 0xfd then Some(Failed(Reverted(Read(a.memory, x % TWO64, y % TWO64))))
    else None
  }

  ghost function IdealExec(call: Call, op: Byte, a: Ideal): Progress
    requires Total(a)
  {
    var charged := (a.gasUsed + 1) % TWO64;
    match End(call, op, a)
    case Some(outcome) => Ended(a.(gasUsed := charged), outcome)
    case None =>
      Going(Ideal(NextPc(op, a), Gives(call, op, a) + Drop(a.stack, Takes(op)),
                  MemoryAfter(op, a), StorageAfter(op, a), charged))
  }

  ghost function IdealStep(call: Call, a: Ideal): Progress
    requires Total(a)
  {
    if a.pc >= |call.code| then Ended(a, Returned([]))
    else if (a.gasUsed + 1) % TWO64 > call.gasLimit then Ended(a, Failed(OutOfGas))
    else IdealExec(call, call.code[a.pc], a)
  }

  lemma IdealStepTotal(call: Call, a: Ideal)
    requires Total(a)
    ensures Total(IdealStep(call, a).a)
  {}

  ghost function IdealRunFor(call: Call, a: Ideal, n: nat): Progress
    requires Total(a)
    decreases n
  {
    if n == 0 then Going(a)
    else
      IdealStepTotal(call, a);
      match IdealStep(call, a)
      case Going(a') => IdealRunFor(call, a', n - 1)
      case Ended(_, _) => IdealStep(call, a)
  }

  // ---- abstraction ----------------------------------------------------------------------

  ghost function Flip(stack: seq<Word>): (r: seq<Word>)
    ensures |r| == |stack|
    ensures forall i :: 0 <= i < |stack| ==> r[i] == stack[|stack| - 1 - i]
  {
    seq(|stack|, i requires 0 <= i < |stack| => stack[|stack| - 1 - i])
  }

  ghost function Endless(store: seq<Byte>): imap<nat, Byte> {
    imap i: nat | true :: if i < |store| then store[i] else 0
  }

  /** The word a contract finds under a key; missing and empty entries read as zero. */
  function LoadWord(host: Host, w: World, contract: Address, key: Word): Word {
    match GetAccountState(w, contract, host.sha256(Pad32(key)))
    case None => 0
    case Some(value) => FromBytes(value) % TWO256
  }

  ghost function Words(host: Host, w: World, contract: Address): imap<Word, Word> {
    imap k: Word | true :: LoadWord(host, w, contract, k)
  }

  ghost function Abstract(call: Call, s: State): (a: Ideal)
    ensures Total(a)
  {
    Ideal(s.pc, Flip(s.stack), Endless(s.memory), Words(call.host, s.world, call.contract), s.gasUsed)
  }

  /** A hash collision: two different 32-byte strings with one hash, the first spelling `k` and the
      second `k'`. */
  ghost predicate KeysCollide(host: Host, k: Word, k': Word) {
    exists x: seq<Byte>, y: seq<Byte> ::
      && |x| == |y| == 32 && FromBytes(x) == k && FromBytes(y) == k'
      && x != y && host.sha256(x) == host.sha256(y)
  }

  /** None of `keys` collides with `k`. */
  ghost predicate Alone(host: Host, keys: set<Word>, k: Word) {
    forall k' :: k' in keys ==> !KeysCollide(host, k, k')
  }

  /** No two of `keys` collide. */
  ghost predicate NoClash(host: Host, keys: set<Word>) {
    forall k :: k in keys ==> Alone(host, keys, k)
  }

  /** `storage` and the contract's entries agree on every word, used or not, that no other word of
      `keys` could overwrite. */
  ghost predicate Agrees(call: Call, keys: set<Word>, storage: imap<Word, Word>, w: World) {
    forall k: Word :: Alone(call.host, keys, k) ==>
      k in storage && storage[k] == LoadWord(call.host, w, call.contract, k)
  }

  ghost predicate Represents(call: Call, keys: set<Word>, s: State, a: Ideal) {
    && Total(a)
    && a == Abstract(call, s).(storage := a.storage)
    && Agrees(call, keys, a.storage, s.world)
  }

  /** What a run leaves behind, seen abstractly; the stack and memory of a finished run are gone. */
  ghost predicate Matches(call: Call, keys: set<Word>, r: Status, p: Progress) {
    match r
    case Running(s) => p.Going? && Represents(call, keys, s, p.a)
    case Halted(s, outcome) =>
      && p.Ended?
      && p.outcome == outcome
      && p.a.gasUsed == s.gasUsed
      && Agrees(call, keys, p.a.storage, s.world)
  }

  /** The same where the clean machine started on exactly the contract's entries. */
  ghost predicate MatchesExactly(call: Call, r: Status, p: Progress) {
    match r
    case Running(s) => p == Going(Abstract(call, s))
    case Halted(s, outcome) =>
      && p.Ended?
      && p.outcome == outcome
      && p.a.gasUsed == s.gasUsed
      && p.a.storage == Words(call.host, s.world, call.contract)
  }

  // ---- stack ----------------------------------------------------------------------------------

  lemma FlipRest(stack: seq<Word>)
    ensures Arg(Flip(stack), 0) == Top(stack)
    ensures Flip(Rest(stack)) == Drop(Flip(stack), 1)
  {}

  lemma FlipRest2(stack: seq<Word>)
    ensures Arg(Flip(stack), 1) == Top(Rest(stack))
    ensures Flip(Rest(Rest(stack))) == Drop(Flip(stack), 2)
  {}

  lemma FlipPush(stack: seq<Word>, v: int)
    ensures Flip(Push(stack, v)) == [v % TWO256] + Flip(stack)
  {}

  // ---- memory -----------------------------------------------------------------------------------

  /** Growth is invisible, and a range inside the store reads the same either way. */
  lemma AccessEndless(host: Host, store: seq<Byte>, offset: U64, size: U64)
    requires Access(host, store, offset, size).Some?
    requires |store| <= host.allocLimit
    ensures var grown := Access(host, store, offset, size).value;
            && Endless(grown) == Endless(store)
            && offset + size <= |grown|
            && grown[offset..offset + size] == Read(Endless(store), offset, size)
  {
    var grown := Access(host, store, offset, size).value;
    if grown != store {
      var needed := (offset + size) % TWO64;
      assert grown == Resize(store, (needed + 31) % TWO64 / 32 * 32);
      assert needed > |store|;
      assert needed <= |grown|;
    }
    assert forall i: nat :: (if i < |grown| then grown[i] else 0) == (if i < |store| then store[i] else 0);
    assert Endless(grown) == Endless(store);
  }

  lemma WriteWordEndless(store: seq<Byte>, offset: nat, v: Word)
    requires offset + 32 <= |store|
    ensures Endless(Write(store, offset, Pad32(v)))
            == imap i: nat | true ::
                 if offset <= i < offset + 32 then v / Pow256(31 - (i - offset)) % 256
                 else Endless(store)[i]
  {
    hide Pow256, Pad32;
    forall j | 0 <= j < 32 ensures Pad32(v)[j] == v / Pow256(31 - j) % 256 {
      Pad32Digit(v, j);
    }
    var w := Write(store, offset, Pad32(v));
    assert forall i :: offset <= i < offset + 32 ==> w[i] == Pad32(v)[i - offset];
  }

  lemma WriteByteEndless(store: seq<Byte>, offset: nat, b: Byte)
    requires offset < |store|
    ensures Endless(Write(store, offset, [b])) == Endless(store)[offset := b]
  {}

  // ---- storage -------------------------------------------------------------------------------------

  lemma StoredBytesValue(v: Word)
    ensures FromBytes(StoredBytes(v)) == v
  {
    BytesRoundTrip(v);
    assert FromBytes([0]) == 0;
  }

  /** Entries have no leading zero byte, but zero itself is one zero byte. */
  lemma StoredBytesShortest(v: Word)
    ensures var bs := StoredBytes(v);
            && FromBytes(bs) == v
            && bs != [] && (|bs| > 1 ==> bs[0] != 0)
  {
    StoredBytesValue(v);
    FirstDigit(v);
  }

  lemma {:induction false} FirstDigit(v: nat)
    ensures BytesOf(v) != [] ==> BytesOf(v)[0] != 0
  {
    if v < 256 {
      if v > 0 {
        assert BytesOf(v / 256) == [];
      }
    } else {
      FirstDigit(v / 256);
    }
  }

  /** The slot of a key is the hash of the 32-byte string that spells it. */
  lemma SlotIs(host: Host, key: Word, bs: seq<Byte>)
    requires |bs| == 32 && FromBytes(bs) == key
    ensures StorageKey(host, key) == host.sha256(bs)
  {
    Pad32Unique(bs);
  }

  /** Two keys share a slot exactly when they are one key or the hash collides on their spellings. */
  lemma SlotsExact(host: Host, k: Word, k': Word)
    ensures StorageKey(host, k) == StorageKey(host, k') <==> k == k' || KeysCollide(host, k, k')
  {
    hide StorageKey;
    SlotIs(host, k, Pad32(k));
    SlotIs(host, k', Pad32(k'));
    if k != k' && StorageKey(host, k) == StorageKey(host, k') {
      var x, y := Pad32(k), Pad32(k');
      assert |x| == |y| == 32 && FromBytes(x) == k && FromBytes(y) == k' && x != y;
    } else if KeysCollide(host, k, k') {
      var x: seq<Byte>, y: seq<Byte> :| && |x| == |y| == 32 && FromBytes(x) == k && FromBytes(y) == k'
                                         && x != y && host.sha256(x) == host.sha256(y);
      SlotIs(host, k, x);
      SlotIs(host, k', y);
    }
  }

  lemma LoadBySlot(host: Host, w: World, contract: Address, key: Word)
    ensures LoadWord(host, w, contract, key)
            == match GetAccountState(w, contract, StorageKey(host, key))
               case None => 0
               case Some(value) => FromBytes(value) % TWO256
  {
    SlotIs(host, key, Pad32(key));
    hide Pad32, FromBytes, StorageKey;
  }

  ghost function AfterSstore(host: Host, w: World, contract: Address, key: Word, v: Word): World {
    SetAccountState(w, contract, StorageKey(host, key), StoredBytes(v))
  }

  /** Writing the stripped bytes under the hashed key sets that word, those that collide with it, and no
      other. */
  lemma LoadAfterSstore(host: Host, w: World, contract: Address, key: Word, v: Word, k: Word)
    ensures LoadWord(host, AfterSstore(host, w, contract, key, v), contract, k)
            == if k == key || KeysCollide(host, k, key) then v else LoadWord(host, w, contract, k)
  {
    hide StorageKey, StoredBytes, FromBytes, KeysCollide, LoadWord;
    StoredBytesValue(v);
    SlotsExact(host, k, key);
    LoadBySlot(host, w, contract, k);
    LoadBySlot(host, AfterSstore(host, w, contract, key, v), contract, k);
  }

  /** SSTORE sets its word and disturbs none that collides with no key in use. */
  lemma SstoreWords(call: Call, keys: set<Word>, storage: imap<Word, Word>, w: World, key: Word, v: Word)
    requires Agrees(call, keys, storage, w) && key in keys
    ensures Agrees(call, keys, storage[key := v], AfterSstore(call.host, w, call.contract, key, v))
  {
    hide StorageKey, LoadWord, AfterSstore, KeysCollide;
    forall k: Word | Alone(call.host, keys, k)
      ensures LoadWord(call.host, AfterSstore(call.host, w, call.contract, key, v), call.contract, k)
              == storage[key := v][k]
    {
      LoadAfterSstore(call.host, w, call.contract, key, v, k);
    }
  }

  /** SSTORE under a key changes that word alone, in every state, exactly when the hash does not collide
      on it and any other word. */
  lemma SstoreExact(host: Host, contract: Address, key: Word)
    ensures (forall w, v: Word ::
               Words(host, AfterSstore(host, w, contract, key, v), contract)
               == Words(host, w, contract)[key := v])
            <==> (forall k: Word :: !KeysCollide(host, k, key))
  {
    hide StorageKey, AfterSstore, KeysCollide, Pad32, FromBytes;
    if k: Word :| KeysCollide(host, k, key) {
      DifferentWords(host, k, key);
      var w' := AfterSstore(host, EMPTY_WORLD, contract, key, 1);
      LoadAfterSstore(host, EMPTY_WORLD, contract, key, 1, k);
      assert Words(host, w', contract)[k] == 1;
      assert Words(host, EMPTY_WORLD, contract)[key := 1][k] == 0;
    } else {
      forall w, v: Word
        ensures Words(host, AfterSstore(host, w, contract, key, v), contract)
             == Words(host, w, contract)[key := v]
      {
        hide LoadWord;
        forall k: Word { LoadAfterSstore(host, w, contract, key, v, k); }
      }
    }
  }

  lemma DifferentWords(host: Host, k: Word, k': Word)
    requires KeysCollide(host, k, k')
    ensures k != k'
  {
    var x: seq<Byte>, y: seq<Byte> :| && |x| == |y| == 32 && FromBytes(x) == k && FromBytes(y) == k'
                                       && x != y && host.sha256(x) == host.sha256(y);
    if k == k' {
      FromBytesInjective(x, y);
    }
  }

  // ---- one instruction ---------------------------------------------------------------------------------

  /** The instruction `op` at `s`, with result `r`, does what the table says unless it panics. */
  ghost predicate Simulated(call: Call, op: Byte, s: State, r: Status) {
    Panics(r) || MatchesExactly(call, r, IdealExec(call, op, Abstract(call, s)))
  }

  lemma SimulatePush(call: Call, op: Byte, s: State)
    requires s.pc < |call.code|
    requires PUSH1 <= op <= PUSH32
    ensures Simulated(call, op, s, ExecPush(call, op - PUSH1 + 1, Charged(s)))
  {
    hide Words, Endless;
    var size := op - PUSH1 + 1;
    if s.pc + 1 + size <= |call.code| {
      FlipPush(s.stack, FromBytes(call.code[s.pc + 1..s.pc + 1 + size]));
    }
  }

  lemma SimulateDup(call: Call, op: Byte, s: State)
    requires s.pc < |call.code|
    requires DUP1 <= op <= DUP16
    ensures Simulated(call, op, s, ExecDup(op - DUP1 + 1, Charged(s)))
  {
    hide Words, Endless;
    var n := op - DUP1 + 1;
    if n <= |s.stack| {
      FlipPush(s.stack, s.stack[|s.stack| - n]);
    }
  }

  lemma FlipSwap(stack: seq<Word>, n: nat)
    requires 1 <= n < |stack|
    ensures var top, f := |stack| - 1, Flip(stack);
            Flip(stack[top := stack[top - n]][top - n := stack[top]])
            == [f[n]] + f[1..n] + [f[0]] + Drop(f, n + 1)
  {
    var top, f := |stack| - 1, Flip(stack);
    var swapped := stack[top := stack[top - n]][top - n := stack[top]];
    var r, t := Flip(swapped), [f[n]] + f[1..n] + [f[0]] + Drop(f, n + 1);
    assert |r| == |t|;
    forall i | 0 <= i < |r| ensures r[i] == t[i] {
      assert r[i] == swapped[top - i];
      if i == 0 || i == n {
      } else if i < n {
        assert t[i] == f[1..n][i - 1];
      } else {
        assert t[i] == f[n + 1..][i - n - 1];
      }
    }
  }

  /** An instruction that only rearranges the stack matches if the stacks do. */
  lemma StackOnly(call: Call, op: Byte, s: State, stack: seq<Word>)
    requires DUP1 <= op <= SWAP16
    requires End(call, op, Abstract(call, s)).None?
    requires Flip(stack) == Gives(call, op, Abstract(call, s)) + Drop(Flip(s.stack), Takes(op))
    ensures MatchesExactly(call, Running(Charged(s).(stack := stack)),
                           IdealExec(call, op, Abstract(call, s)))
  {
    hide Words, Endless, Gives, Drop, Takes, Flip;
  }

  lemma SimulateSwap(call: Call, op: Byte, s: State)
    requires s.pc < |call.code|
    requires SWAP1 <= op <= SWAP16
    ensures Simulated(call, op, s, ExecSwap(op - SWAP1 + 1, Charged(s)))
  {
    hide Words, Endless, MatchesExactly, IdealExec;
    var n, f, top := op - SWAP1 + 1, Flip(s.stack), |s.stack| - 1;
    if n < |s.stack| {
      FlipSwap(s.stack, n);
      assert Gives(call, op, Abstract(call, s)) == [f[n]] + f[1..n] + [f[0]];
      StackOnly(call, op, s, s.stack[top := s.stack[top - n]][top - n := s.stack[top]]);
    } else {
      SwapUnderflow(call, op, s);
    }
  }

  lemma SwapUnderflow(call: Call, op: Byte, s: State)
    requires s.pc < |call.code|
    requires SWAP1 <= op <= SWAP16 && |s.stack| <= op - SWAP1 + 1
    ensures Simulated(call, op, s, ExecSwap(op - SWAP1 + 1, Charged(s)))
  {
    hide Words, Endless;
  }

  lemma ArithIsMasked(op: Byte, x: Word, y: Word)
    requires IsBinary(op)
    ensures Arith(op, x, y) == Binary(op, x, y) % TWO256
  {
    if op == DIV && y != 0 {
      DivLe(x, y);
    }
  }

  lemma SimulateBinary(call: Call, op: Byte, s: State)
    requires s.pc < |call.code|
    requires IsBinary(op)
    ensures Simulated(call, op, s, ExecBinary(op, Charged(s)))
  {
    hide Words, Endless;
    var x, y := Top(s.stack), Top(Rest(s.stack));
    FlipRest(s.stack);
    FlipRest2(s.stack);
    FlipPush(Rest(Rest(s.stack)), Binary(op, x, y));
    ArithIsMasked(op, x, y);
  }

  lemma SimulateIsZero(call: Call, s: State)
    requires s.pc < |call.code|
    ensures Simulated(call, ISZERO, s, ExecIsZero(Charged(s)))
  {
    hide Words, Endless;
    FlipRest(s.stack);
    FlipPush(Rest(s.stack), if Top(s.stack) == 0 then 1 else 0);
  }

  lemma SimulateSha3(call: Call, s: State)
    requires s.pc < |call.code| && |s.memory| <= call.host.allocLimit
    ensures Simulated(call, SHA3, s, ExecSha3(call, Charged(s)))
  {
    hide Words, Endless, Access, Read, Flip, Push;
    FlipRest(s.stack);
    FlipRest2(s.stack);
    var offset, size := Low64(Top(s.stack)), Low64(Top(Rest(s.stack)));
    var r := Access(call.host, s.memory, offset, size);
    if r.Some? {
      AccessEndless(call.host, s.memory, offset, size);
      FlipPush(Rest(Rest(s.stack)), call.host.keccak256(r.value[offset..offset + size]));
    }
  }

  lemma SimulateMload(call: Call, s: State)
    requires s.pc < |call.code| && |s.memory| <= call.host.allocLimit
    ensures Simulated(call, MLOAD, s, ExecMload(call, Charged(s)))
  {
    hide Words, Endless, Access, Read;
    FlipRest(s.stack);
    var offset := Low64(Top(s.stack));
    var r := Access(call.host, s.memory, offset, 32);
    if r.Some? {
      AccessEndless(call.host, s.memory, offset, 32);
      FlipPush(Rest(s.stack), FromBytes(r.value[offset..offset + 32]));
    }
  }

  lemma SimulateMstore(call: Call, s: State)
    requires s.pc < |call.code| && |s.memory| <= call.host.allocLimit
    ensures Simulated(call, MSTORE, s, ExecMstore(call, Charged(s)))
  {
    hide Words, Access, Write, Pow256, Pad32, Flip;
    FlipRest(s.stack);
    FlipRest2(s.stack);
    var offset, v := Low64(Top(s.stack)), Top(Rest(s.stack));
    var r := Access(call.host, s.memory, offset, 32);
    if r.Some? {
      AccessEndless(call.host, s.memory, offset, 32);
      WriteWordEndless(r.value, offset, v);
      assert Endless(Write(r.value, offset, Pad32(v))) == MemoryAfter(MSTORE, Abstract(call, s));
    }
  }

  lemma LowByte(v: Word)
    ensures Low64(v) % 256 == v % 256
  {}

  lemma SimulateMstore8(call: Call, s: State)
    requires s.pc < |call.code| && |s.memory| <= call.host.allocLimit
    ensures Simulated(call, MSTORE8, s, ExecMstore8(call, Charged(s)))
  {
    hide Words, Access, Write;
    FlipRest(s.stack);
    FlipRest2(s.stack);
    var offset, v := Low64(Top(s.stack)), Top(Rest(s.stack));
    var r := Access(call.host, s.memory, offset, 1);
    if r.Some? {
      AccessEndless(call.host, s.memory, offset, 1);
      LowByte(v);
      WriteByteEndless(r.value, offset, v % 256);
    }
  }

  lemma SimulateSload(call: Call, s: State)
    requires s.pc < |call.code|
    ensures Simulated(call, SLOAD, s, ExecSload(call, Charged(s)))
  {
    hide LoadWord, StorageKey, Flip, Endless;
    FlipRest(s.stack);
    FlipPush(Rest(s.stack), LoadWord(call.host, s.world, call.contract, Top(s.stack)));
    LoadBySlot(call.host, s.world, call.contract, Top(s.stack));
  }

  lemma SimulateSstore(call: Call, keys: set<Word>, s: State, a: Ideal)
    requires s.pc < |call.code| && Represents(call, keys, s, a)
    requires Top(s.stack) in keys
    ensures Matches(call, keys, ExecSstore(call, Charged(s)), IdealExec(call, SSTORE, a))
  {
    hide Words, Endless, Agrees;
    FlipRest(s.stack);
    FlipRest2(s.stack);
    SstoreWords(call, keys, a.storage, s.world, Top(s.stack), Top(Rest(s.stack)));
  }

  lemma DataWordBytes(callData: seq<Byte>, offset: nat)
    ensures DataWord(callData, offset) == DataBytes(callData, offset)
  {
    forall i | 0 <= i < 32
      ensures DataWord(callData, offset)[i] == DataBytes(callData, offset)[i]
    {
      assert DataBytes(callData, offset)[i] == DataByte(callData, offset + i);
      if offset < |callData| {
        assert Resize(callData[offset..], 32)[i]
            == if i < |callData| - offset then callData[offset..][i] else 0;
      }
    }
  }

  lemma SimulateCallData(call: Call, s: State)
    requires s.pc < |call.code|
    ensures Simulated(call, CALLDATALOAD, s, ExecCallDataLoad(call, Charged(s)))
  {
    hide Words, Endless;
    FlipRest(s.stack);
    var offset := Low64(Top(s.stack));
    DataWordBytes(call.callData, offset);
    FlipPush(Rest(s.stack), FromBytes(DataBytes(call.callData, offset)));
  }

  lemma SimulateJump(call: Call, s: State)
    requires s.pc < |call.code|
    ensures Simulated(call, JUMP, s, ExecJump(call, Charged(s)))
  {
    hide Words, Endless;
    FlipRest(s.stack);
  }

  lemma SimulateJumpi(call: Call, s: State)
    requires s.pc < |call.code|
    ensures Simulated(call, JUMPI, s, ExecJumpi(call, Charged(s)))
  {
    hide Words, Endless;
    FlipRest(s.stack);
    FlipRest2(s.stack);
  }

  lemma SimulateExit(call: Call, op: Byte, s: State)
    requires s.pc < |call.code| && |s.memory| <= call.host.allocLimit
    requires op == RETURN || op == REVERT
    ensures Simulated(call, op, s, ExecExit(call, op, Charged(s)))
  {
    hide Words, Endless, Access, Read;
    FlipRest(s.stack);
    FlipRest2(s.stack);
    var offset, size := Low64(Top(s.stack)), Low64(Top(Rest(s.stack)));
    if Access(call.host, s.memory, offset, size).Some? {
      AccessEndless(call.host, s.memory, offset, size);
    }
  }

  predicate IsPlain(op: Byte) {
    && !(PUSH1 <= op <= SWAP16)
    && !IsBinary(op)
    && op !in {ISZERO, SHA3, MLOAD, MSTORE, MSTORE8, SLOAD, SSTORE, CALLDATALOAD,
               JUMP, JUMPI, RETURN, REVERT}
  }

  /** POP, CALLVALUE, CALLDATASIZE, STOP, JUMPDEST and every byte that is no instruction. */
  lemma SimulatePlain(call: Call, op: Byte, s: State)
    requires s.pc < |call.code|
    requires IsPlain(op)
    ensures Simulated(call, op, s, Exec(call, op, Charged(s)))
  {
    hide Words, Endless;
    FlipRest(s.stack);
    FlipPush(s.stack, call.value);
    FlipPush(s.stack, |call.callData|);
  }

  lemma Simulate(call: Call, op: Byte, s: State)
    requires s.pc < |call.code| && |s.memory| <= call.host.allocLimit
    requires op != SSTORE
    ensures Simulated(call, op, s, Exec(call, op, Charged(s)))
  {
    hide Simulated;
    if PUSH1 <= op <= PUSH32 { SimulatePush(call, op, s); }
    else if DUP1 <= op <= DUP16 { SimulateDup(call, op, s); }
    else if SWAP1 <= op <= SWAP16 { SimulateSwap(call, op, s); }
    else if IsBinary(op) { SimulateBinary(call, op, s); }
    else if op == ISZERO { SimulateIsZero(call, s); }
    else if op == SHA3 { SimulateSha3(call, s); }
    else if op == MLOAD { SimulateMload(call, s); }
    else if op == MSTORE { SimulateMstore(call, s); }
    else if op == MSTORE8 { SimulateMstore8(call, s); }
    else if op == SLOAD { SimulateSload(call, s); }
    else if op == CALLDATALOAD { SimulateCallData(call, s); }
    else if op == JUMP { SimulateJump(call, s); }
    else if op == JUMPI { SimulateJumpi(call, s); }
    else if op == RETURN || op == REVERT { SimulateExit(call, op, s); }
    else { SimulatePlain(call, op, s); }
  }

  /** An instruction that does not write storage does the same on any storage that reads the same
      word under its key. */
  lemma OtherStorage(call: Call, op: Byte, a: Ideal, storage: imap<Word, Word>)
    requires Total(a) && Total(a.(storage := storage))
    requires op != SSTORE
    requires op == SLOAD ==> storage[Arg(a.stack, 0)] == a.storage[Arg(a.stack, 0)]
    ensures var p, p' := IdealExec(call, op, a), IdealExec(call, op, a.(storage := storage));
            && p.a.storage == a.storage
            && p' == match p
                     case Going(b) => Going(b.(storage := storage))
                     case Ended(b, outcome) => Ended(b.(storage := storage), outcome)
  {
    hide Arith, FromBytes, DataBytes, Pow256, Drop, Takes, Read;
  }

  /** If the entries read the same before and after, what agreed with them still does. */
  lemma StillAgrees(call: Call, keys: set<Word>, storage: imap<Word, Word>, w: World, w': World)
    requires Agrees(call, keys, storage, w)
    requires Words(call.host, w', call.contract) == Words(call.host, w, call.contract)
    ensures Agrees(call, keys, storage, w')
  {
    forall k: Word ensures LoadWord(call.host, w', call.contract, k) == LoadWord(call.host, w, call.contract, k) {
      assert Words(call.host, w', call.contract)[k] == Words(call.host, w, call.contract)[k];
    }
  }

  lemma ReadsAlike(call: Call, keys: set<Word>, op: Byte, s: State, a: Ideal)
    requires Represents(call, keys, s, a) && NoClash(call.host, keys)
    requires op == SLOAD ==> Top(s.stack) in keys
    ensures var exact := Abstract(call, s);
            op == SLOAD ==> a.storage[Arg(exact.stack, 0)] == exact.storage[Arg(exact.stack, 0)]
  {
    FlipRest(s.stack);
  }

  lemma SimulateReading(call: Call, keys: set<Word>, op: Byte, s: State, a: Ideal)
    requires s.pc < |call.code| && |s.memory| <= call.host.allocLimit
    requires Represents(call, keys, s, a) && NoClash(call.host, keys)
    requires op != SSTORE && (op == SLOAD ==> Top(s.stack) in keys)
    ensures var r := Exec(call, op, Charged(s));
            Panics(r) || Matches(call, keys, r, IdealExec(call, op, a))
  {
    hide Exec, IdealExec, Words, Endless, LoadWord, Alone, Agrees, Flip, NoClash;
    var r, exact := Exec(call, op, Charged(s)), Abstract(call, s);
    Simulate(call, op, s);
    ReadsAlike(call, keys, op, s, a);
    OtherStorage(call, op, exact, a.storage);
    if !Panics(r) {
      StillAgrees(call, keys, a.storage, s.world, r.s.world);
    }
  }

  /** One instruction on any clean state that represents the interpreter's. */
  lemma SimulateOn(call: Call, keys: set<Word>, op: Byte, s: State, a: Ideal)
    requires s.pc < |call.code| && |s.memory| <= call.host.allocLimit
    requires Represents(call, keys, s, a) && NoClash(call.host, keys)
    requires op == SLOAD || op == SSTORE ==> Top(s.stack) in keys
    ensures var r := Exec(call, op, Charged(s));
            Panics(r) || Matches(call, keys, r, IdealExec(call, op, a))
  {
    hide Represents, Matches, NoClash, IdealExec;
    if op == SSTORE {
      SimulateSstore(call, keys, s, a);
    } else {
      SimulateReading(call, keys, op, s, a);
    }
  }

  // ---- runs -------------------------------------------------------------------------------------------

  /** The storage key the next turn uses, if any. */
  function KeyUsed(call: Call, s: State): set<Word> {
    if Executes(call, s) && call.code[s.pc] in {SLOAD, SSTORE} then {Top(s.stack)} else {}
  }

  /** The storage keys the first `n` turns use. */
  function KeysUsed(call: Call, s: State, n: nat): set<Word>
    decreases n
  {
    if n == 0 then {}
    else
      match Step(call, s)
      case Running(s') => KeyUsed(call, s) + KeysUsed(call, s', n - 1)
      case Halted(_, _) => KeyUsed(call, s)
  }

  lemma SimulateStep(call: Call, keys: set<Word>, s: State, a: Ideal)
    requires WellFormed(call, s)
    requires Represents(call, keys, s, a) && NoClash(call.host, keys)
    requires KeyUsed(call, s) <= keys
    ensures Panics(Step(call, s)) || Matches(call, keys, Step(call, s), IdealStep(call, a))
  {
    hide Exec, IdealExec, NoClash, Words, Endless, Agrees;
    if Executes(call, s) {
      SimulateOn(call, keys, call.code[s.pc], s, a);
    }
  }

  /** After any number of steps the interpreter has panicked or matches the clean machine, provided
      the hash does not collide on two storage keys it used. */
  lemma {:induction false} RefinesFor(call: Call, keys: set<Word>, s: State, a: Ideal, n: nat)
    requires WellFormed(call, s)
    requires Represents(call, keys, s, a) && NoClash(call.host, keys)
    requires KeysUsed(call, s, n) <= keys
    ensures Panics(RunFor(call, s, n))
            || Matches(call, keys, RunFor(call, s, n), IdealRunFor(call, a, n))
    decreases n
  {
    hide Step, IdealStep, WellFormed, NoClash, Abstract, Agrees, KeyUsed;
    if n == 0 {
    } else {
      SimulateStep(call, keys, s, a);
      StepWellFormed(call, s);
      var r := Step(call, s);
      if r.Running? && !Panics(r) {
        RefinesFor(call, keys, r.s, IdealStep(call, a).a, n - 1);
      }
    }
  }

  /** A fresh clean machine, all memory zero, on the storage words `storage`. */
  ghost function IdealStart(storage: imap<Word, Word>): Ideal {
    Ideal(0, [], Endless([]), storage, 0)
  }

  /** A finished run that did not panic has the clean machine's outcome and charge, and its storage on
      every word that collides with no word the run used. */
  lemma RunRefines(call: Call, w: World, n: nat)
    requires RunFor(call, Start(w), n).Halted?
    requires NoClash(call.host, KeysUsed(call, Start(w), n))
    requires !Panics(Run(call, Start(w)))
    ensures Matches(call, KeysUsed(call, Start(w), n), Run(call, Start(w)),
                    IdealRunFor(call, IdealStart(Words(call.host, w, call.contract)), n))
  {
    hide KeysUsed, NoClash, Run, RunFor, IdealRunFor, LoadWord, Alone;
    var keys, a := KeysUsed(call, Start(w), n), IdealStart(Words(call.host, w, call.contract));
    assert Abstract(call, Start(w)) == a;
    RunIs(call, Start(w), n);
    RefinesFor(call, keys, Start(w), a, n);
  }

  /** Where the hash never collides on 32-byte strings, the whole storage is the clean machine's. */
  lemma WholeStorage(call: Call, keys: set<Word>, storage: imap<Word, Word>, w: World)
    requires forall x: seq<Byte>, y: seq<Byte> ::
               |x| == |y| == 32 && call.host.sha256(x) == call.host.sha256(y) ==> x == y
    requires Agrees(call, keys, storage, w)
    ensures NoClash(call.host, keys)
    ensures storage == Words(call.host, w, call.contract)
  {
    hide LoadWord;
    forall k: Word ensures Alone(call.host, keys, k) {}
  }

  /** Loading a word back gives what was stored. */
  lemma MemoryRoundTrip(a: Ideal)
    requires Total(a)
    ensures FromBytes(Read(MemoryAfter(MSTORE, a), Arg(a.stack, 0) % TWO64, 32)) == Arg(a.stack, 1)
  {
    var at, v := Arg(a.stack, 0) % TWO64, Arg(a.stack, 1);
    var bytes := Read(MemoryAfter(MSTORE, a), at, 32);
    forall i | 0 <= i < 32 ensures bytes[i] == Pad32(v)[i] {
      Pad32Digit(v, i);
    }
    assert bytes == Pad32(v);
  }
}
