/** What a transaction's contract code does to the ledger, told by the clean machine. */
module Contracts {
  import opened Basics
  import opened Types
  import opened Accounts
  import opened Machine
  import opened MachineRuns
  import opened IdealMachine
  import opened Ledger

  lemma SameStorage(host: Host, w: World, w': World, c: Address)
    requires forall k: Hash :: GetAccountState(w', c, k) == GetAccountState(w, c, k)
    ensures Words(host, w', c) == Words(host, w, c)
  {}

  /** Moving value and counting nonces leaves every contract's storage alone. */
  lemma SettleKeepsWords(host: Host, w: World, tx: Transaction, c: Address)
    ensures Words(host, Settle(host, w, tx).w, c) == Words(host, w, c)
  {
    hide Words;
    SameStorage(host, w, Settle(host, w, tx).w, c);
  }

  /** Code writes only to its own contract. */
  lemma OthersKeepWords(host: Host, w: World, w': World, contract: Address, c: Address)
    requires OnlyStorageOf(contract, w, w') && c != contract
    ensures Words(host, w', c) == Words(host, w, c)
  {
    hide Words;
    SameStorage(host, w, w', c);
  }

  /** The call a transaction makes: its payload as code, no call data, its target, value and limit. */
  function CallMade(host: Host, tx: Transaction): Call {
    Call(host, tx.data, [], tx.to, tx.value, tx.gasLimit)
  }

  /** The clean machine's run of the transaction's code from `w` ends with `outcome` within `n` turns,
      and `w'` holds the storage it computes. */
  ghost predicate Computes(host: Host, tx: Transaction, w: World, n: nat, outcome: Outcome, w': World) {
    var p := IdealRunFor(CallMade(host, tx), IdealStart(Words(host, w, tx.to)), n);
    && p.Ended? && p.outcome == outcome
    && Agrees(CallMade(host, tx), KeysUsed(CallMade(host, tx), Start(w), n), p.a.storage, w')
  }

  /** A transaction with code runs it once on its target's storage. Accepted, refused by its own code,
      or refused because the payment after it failed: the storage left behind is the clean machine's,
      and other contracts keep theirs. */
  lemma ContractEffect(host: Host, w: World, tx: Transaction, c: Address)
    requires |tx.data| > 0
    requires forall n: nat :: NoClash(host, KeysUsed(CallMade(host, tx), Start(w), n))
    ensures var r := ExecuteTx(host, w, tx);
            && (c != tx.to ==> Words(host, r.w, c) == Words(host, w, c))
            && (r.verdict.Accepted? || (r.verdict.Rejected? && r.verdict.error.TransferFailed?) ==>
                  exists n: nat, data :: Computes(host, tx, w, n, Returned(data), r.w))
            && (r.verdict.Rejected? && r.verdict.error.VmFailed? ==>
                  exists n: nat :: Computes(host, tx, w, n, Failed(r.verdict.error.vm), r.w))
  {
    hide Words, Run, Halts, Settle, Computes, KeysUsed, NoClash;
    var call := CallMade(host, tx);
    var end := Run(call, Start(w));
    RunTouchesStorageOnly(call, w);
    if c != tx.to {
      OthersKeepWords(host, w, end.s.world, tx.to, c);
      SettleKeepsWords(host, end.s.world, tx, c);
    }
    SettleErrors(host, end.s.world, tx);
    if end.Halted? && !end.outcome.Panicked? {
      EndComputed(host, tx, w);
      var n: nat :| Computes(host, tx, w, n, end.outcome, end.s.world);
      SettleComputes(host, tx, w, n, end.outcome, end.s.world);
    }
  }

  lemma EndComputed(host: Host, tx: Transaction, w: World)
    requires forall n: nat :: NoClash(host, KeysUsed(CallMade(host, tx), Start(w), n))
    requires Run(CallMade(host, tx), Start(w)).Halted? && !Panics(Run(CallMade(host, tx), Start(w)))
    ensures var end := Run(CallMade(host, tx), Start(w));
            exists n: nat :: Computes(host, tx, w, n, end.outcome, end.s.world)
  {
    var call := CallMade(host, tx);
    HaltedHalts(call, w);
    var n: nat :| RunFor(call, Start(w), n).Halted?;
    hide Run, Halts, KeysUsed, NoClash, Agrees, Words, IdealRunFor, IdealStart;
    RunRefines(call, w, n);
    assert Computes(host, tx, w, n, Run(call, Start(w)).outcome, Run(call, Start(w)).s.world);
  }

  lemma SettleComputes(host: Host, tx: Transaction, w: World, n: nat, outcome: Outcome, w': World)
    requires Computes(host, tx, w, n, outcome, w')
    ensures Computes(host, tx, w, n, outcome, Settle(host, w', tx).w)
  {
    var call := CallMade(host, tx);
    var p := IdealRunFor(call, IdealStart(Words(host, w, tx.to)), n);
    hide Words, KeysUsed, Agrees, IdealRunFor, IdealStart, Settle;
    SettleKeepsWords(host, w', tx, tx.to);
    StillAgrees(call, KeysUsed(call, Start(w), n), p.a.storage, w', Settle(host, w', tx).w);
  }

  // ---- what the code can see of its transaction -----------------------------------------------------

  /** OP; PUSH1 0; SSTORE: keep what one instruction reports in word 0. */
  function Keeping(op: Byte): seq<Byte> { [op, 0x60, 0, 0x55] }

  lemma KeepingReads(call: Call, s: State, op: Byte, v: Word)
    requires op in {CALLVALUE, CALLDATASIZE} && call.code == Keeping(op) && call.gasLimit >= 3
    requires v == if op == CALLVALUE then call.value % TWO256 else |call.callData| % TWO256
    requires s == Start(s.world)
    ensures Step(call, s) == Running(State(1, [v], [], s.world, 1))
  {}

  lemma KeepingPushes(call: Call, s: State, op: Byte, v: Word)
    requires call.code == Keeping(op) && call.gasLimit >= 3
    requires s == State(1, [v], [], s.world, 1)
    ensures Step(call, s) == Running(State(3, [v, 0], [], s.world, 2))
  {
    assert call.code[2..3] == [0];
    assert FromBytes([0]) == 0;
    assert Step(call, s) == ExecPush(call, 1, Charged(s));
  }

  lemma KeepingStores(call: Call, s: State, op: Byte, v: Word)
    requires call.code == Keeping(op) && call.gasLimit >= 3
    requires s == State(3, [v, 0], [], s.world, 2)
    ensures var w := AfterSstore(call.host, s.world, call.contract, 0, v);
            Step(call, s) == Running(State(4, [], [], w, 3))
  {
    hide StoredBytes, StorageKey, SetAccountState;
    assert Step(call, s) == ExecSstore(call, Charged(s));
    assert Rest(s.stack) == [v] && Rest([v]) == [];
  }

  lemma KeepingRuns(call: Call, w: World, op: Byte, v: Word)
    requires op in {CALLVALUE, CALLDATASIZE} && call.code == Keeping(op) && call.gasLimit >= 3
    requires v == if op == CALLVALUE then call.value % TWO256 else |call.callData| % TWO256
    ensures Run(call, Start(w))
            == Halted(State(4, [], [], AfterSstore(call.host, w, call.contract, 0, v), 3), Returned([]))
  {
    hide AfterSstore, Exec;
    var s1, s2 := State(1, [v], [], w, 1), State(3, [v, 0], [], w, 2);
    var s3 := State(4, [], [], AfterSstore(call.host, w, call.contract, 0, v), 3);
    KeepingReads(call, Start(w), op, v);
    KeepingPushes(call, s1, op, v);
    KeepingStores(call, s2, op, v);
    assert Step(call, s3) == Halted(s3, Returned([]));
    hide Step;
    assert RunFor(call, s3, 1) == Halted(s3, Returned([]));
    assert RunFor(call, s2, 2) == Halted(s3, Returned([]));
    assert RunFor(call, s1, 3) == Halted(s3, Returned([]));
    assert RunFor(call, Start(w), 4) == Halted(s3, Returned([]));
    RunIs(call, Start(w), 4);
  }

  /** Code that keeps what CALLVALUE reports leaves the transaction's value in word 0 of its target,
      whether or not the payment then goes through; CALLDATASIZE reports zero. */
  lemma CodeSeesTransaction(host: Host, w: World, tx: Transaction)
    requires tx.gasLimit >= 3
    ensures tx.data == [0x34, 0x60, 0, 0x55] ==>
              LoadWord(host, ExecuteTx(host, w, tx).w, tx.to, 0) == tx.value
    ensures tx.data == [0x36, 0x60, 0, 0x55] ==>
              LoadWord(host, ExecuteTx(host, w, tx).w, tx.to, 0) == 0
  {
    hide LoadWord, AfterSstore, Run, Settle;
    if tx.data == Keeping(CALLVALUE) {
      KeepingRuns(CallOf(host, tx), w, CALLVALUE, tx.value);
      Kept(host, w, tx, tx.value);
    } else if tx.data == Keeping(CALLDATASIZE) {
      KeepingRuns(CallOf(host, tx), w, CALLDATASIZE, 0);
      Kept(host, w, tx, 0);
    }
  }

  lemma Kept(host: Host, w: World, tx: Transaction, v: Word)
    ensures LoadWord(host, Settle(host, AfterSstore(host, w, tx.to, 0, v), tx).w, tx.to, 0) == v
  {
    hide LoadWord, AfterSstore, Settle;
    var w' := AfterSstore(host, w, tx.to, 0, v);
    LoadAfterSstore(host, w, tx.to, 0, v, 0);
    SettleKeepsWords(host, w', tx, tx.to);
    assert Words(host, Settle(host, w', tx).w, tx.to)[0] == Words(host, w', tx.to)[0];
  }

  lemma SettleErrors(host: Host, w: World, tx: Transaction)
    ensures var v := Settle(host, w, tx).verdict;
            v.Accepted? || (v.Rejected? && v.error.TransferFailed?)
  {}

  lemma HaltedHalts(call: Call, w: World)
    requires Run(call, Start(w)).Halted?
    ensures Halts(call, Start(w))
  {}
}
