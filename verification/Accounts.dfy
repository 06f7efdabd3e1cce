/** The world state as a value: accounts by address, contract code by hash. */
module Accounts {
  import opened Basics
  import opened Types

  datatype Account = Account(
    nonce: U64,
    balance: U64,
    codeHash: Hash,
    storageRoot: Hash,
    storage: map<Hash, seq<Byte>>)

  datatype World = World(accounts: map<Address, Account>, code: map<Hash, seq<Byte>>)

  const EMPTY_WORLD := World(map[], map[])

  function NewAccount(balance: U64): Account {
    Account(0, balance, 0, 0, map[])
  }

  /** The account at `a`, as every mutating operation sees it after creating it if missing. */
  function Lookup(w: World, a: Address): Account {
    if a in w.accounts then w.accounts[a] else NewAccount(0)
  }

  function Put(w: World, a: Address, acc: Account): World {
    w.(accounts := w.accounts[a := acc])
  }

  function Balance(w: World, a: Address): U64 { Lookup(w, a).balance }

  function Nonce(w: World, a: Address): U64 { Lookup(w, a).nonce }

  function AddBalance(w: World, a: Address, amount: U64): World {
    var acc := Lookup(w, a);
    Put(w, a, acc.(balance := (acc.balance + amount) % TWO64))
  }

  function IncrementNonce(w: World, a: Address): World {
    var acc := Lookup(w, a);
    Put(w, a, acc.(nonce := (acc.nonce + 1) % TWO64))
  }

  datatype TransferError = ZeroValue | NoSender | Insufficient

  datatype TransferResult = Moved(w: World) | Refused(error: TransferError)

  /** Debit and credit act on the same record when the two addresses coincide. */
  function Transfer(w: World, from: Address, to: Address, value: U64): TransferResult {
    if value == 0 then Refused(ZeroValue)
    else if from !in w.accounts then Refused(NoSender)
    else if w.accounts[from].balance < value then Refused(Insufficient)
    else
      var w1 := Put(w, to, Lookup(w, to));
      var payer := Lookup(w1, from);
      var w2 := Put(w1, from, payer.(balance := payer.balance - value));
      var payee := Lookup(w2, to);
      Moved(Put(w2, to, payee.(balance := (payee.balance + value) % TWO64)))
  }

  function SetCode(host: Host, w: World, a: Address, code: seq<Byte>): World {
    var h := host.sha256(code);
    var w1 := Put(w, a, Lookup(w, a).(codeHash := h));
    w1.(code := w1.code[h := code])
  }

  function GetCode(w: World, a: Address): Option<seq<Byte>> {
    if a in w.accounts && w.accounts[a].codeHash in w.code
    then Some(w.code[w.accounts[a].codeHash]) else None
  }

  function SetAccountState(w: World, a: Address, key: Hash, value: seq<Byte>): World {
    var acc := Lookup(w, a);
    Put(w, a, acc.(storage := acc.storage[key := value]))
  }

  /** `None` covers both of the lookup's errors: no such account, no such key. */
  function GetAccountState(w: World, a: Address, key: Hash): Option<seq<Byte>> {
    if a in w.accounts && key in w.accounts[a].storage
    then Some(w.accounts[a].storage[key]) else None
  }

  /** Deployed code is what its account yields; accounts under another code hash are unaffected. */
  lemma CodeRoundTrip(host: Host, w: World, a: Address, code: seq<Byte>, b: Address)
    ensures GetCode(SetCode(host, w, a, code), a) == Some(code)
    ensures b != a && Lookup(w, b).codeHash != host.sha256(code) ==>
              GetCode(SetCode(host, w, a, code), b) == GetCode(w, b)
  {}

  /** Payments, rewards, nonces and entries leave all code alone, also where they create an account, as no
      code is filed under the zero hash. */
  lemma CodeUntouched(w: World, a: Address, b: Address, x: U64, key: Hash, value: seq<Byte>, c: Address)
    requires 0 !in w.code
    ensures GetCode(AddBalance(w, a, x), c) == GetCode(w, c)
    ensures GetCode(IncrementNonce(w, a), c) == GetCode(w, c)
    ensures GetCode(SetAccountState(w, a, key, value), c) == GetCode(w, c)
    ensures Transfer(w, a, b, x).Moved? ==> GetCode(Transfer(w, a, b, x).w, c) == GetCode(w, c)
  {}

  /** An entry written is the entry read; every other entry, balance, nonce and code is as it was. */
  lemma StorageRoundTrip(w: World, a: Address, key: Hash, value: seq<Byte>, b: Address, k: Hash)
    ensures var w' := SetAccountState(w, a, key, value);
            && GetAccountState(w', b, k)
               == (if b == a && k == key then Some(value) else GetAccountState(w, b, k))
            && Balance(w', b) == Balance(w, b) && Nonce(w', b) == Nonce(w, b)
            && Lookup(w', b).codeHash == Lookup(w, b).codeHash && w'.code == w.code
  {}

  // ---- total supply ----------------------------------------------------------

  ghost function Sum(m: map<Address, Account>): nat
    decreases |m|
  {
    if m == map[] then 0
    else
      var a :| a in m;
      m[a].balance + Sum(m - {a})
  }

  ghost function Supply(w: World): nat { Sum(w.accounts) }

  /** The sum may be taken starting from any account. */
  lemma {:induction false} SumRemove(m: map<Address, Account>, a: Address)
    requires a in m
    ensures Sum(m) == m[a].balance + Sum(m - {a})
    decreases |m|
  {
    var b :| b in m && Sum(m) == m[b].balance + Sum(m - {b});
    if b == a {
    } else {
      SumRemove(m - {b}, a);
      SumRemove(m - {a}, b);
      assert m - {a} - {b} == m - {b} - {a};
    }
  }

  lemma SumUpdate(m: map<Address, Account>, a: Address, acc: Account)
    ensures Sum(m[a := acc]) == Sum(m) - (if a in m then m[a].balance else 0) + acc.balance
  {
    SumRemove(m[a := acc], a);
    assert m[a := acc] - {a} == m - {a};
    if a in m {
      SumRemove(m, a);
    } else {
      assert m - {a} == m;
    }
  }

  lemma PutSupply(w: World, a: Address, acc: Account)
    ensures Supply(Put(w, a, acc)) == Supply(w) - Balance(w, a) + acc.balance
  {
    SumUpdate(w.accounts, a, acc);
  }

  /** Two different accounts together hold no more than everything there is. */
  lemma BalancesBounded(w: World, a: Address, b: Address)
    ensures Balance(w, a) <= Supply(w)
    ensures a != b ==> Balance(w, a) + Balance(w, b) <= Supply(w)
  {
    var m := w.accounts;
    if a in m {
      SumRemove(m, a);
      if b in m && b != a {
        SumRemove(m - {a}, b);
      }
    } else if b in m {
      SumRemove(m, b);
    }
  }

  /** Debiting one record and then crediting another, possibly the same, keeps the sum. */
  lemma DebitCredit(w: World, from: Address, to: Address, value: U64)
    requires Supply(w) < TWO64
    requires from in w.accounts && to in w.accounts
    requires value <= w.accounts[from].balance
    ensures var payer := Lookup(w, from);
            var w2 := Put(w, from, payer.(balance := payer.balance - value));
            var payee := Lookup(w2, to);
            && payee.balance + value < TWO64
            && Supply(Put(w2, to, payee.(balance := payee.balance + value))) == Supply(w)
  {
    var payer := Lookup(w, from);
    var w2 := Put(w, from, payer.(balance := payer.balance - value));
    var payee := Lookup(w2, to);
    BalancesBounded(w, from, to);
    PutSupply(w, from, payer.(balance := payer.balance - value));
    PutSupply(w2, to, payee.(balance := payee.balance + value));
  }

  /** A transfer is refused exactly for no value, no sender or too little. */
  lemma TransferExact(w: World, from: Address, to: Address, value: U64)
    ensures var r := Transfer(w, from, to, value);
            && (r == Refused(ZeroValue) <==> value == 0)
            && (r == Refused(NoSender) <==> value > 0 && from !in w.accounts)
            && (r == Refused(Insufficient) <==> from in w.accounts && Balance(w, from) < value)
  {}

  /** A successful transfer moves exactly `value`, creates nothing and never wraps. */
  lemma TransferMoves(w: World, from: Address, to: Address, value: U64)
    requires Supply(w) < TWO64
    requires Transfer(w, from, to, value).Moved?
    ensures var w' := Transfer(w, from, to, value).w;
            && Supply(w') == Supply(w)
            && (forall a :: && Nonce(w', a) == Nonce(w, a)
                            && Balance(w', a) == Balance(w, a)
                                                 + (if a == to then value else 0)
                                                 - (if a == from then value else 0))
  {
    var w1 := Put(w, to, Lookup(w, to));
    PutSupply(w, to, Lookup(w, to));
    DebitCredit(w1, from, to, value);
  }

  lemma AddBalanceMints(w: World, to: Address, amount: U64)
    requires Supply(w) + amount < TWO64
    ensures Supply(AddBalance(w, to, amount)) == Supply(w) + amount
    ensures forall a :: Balance(AddBalance(w, to, amount), a)
                        == Balance(w, a) + (if a == to then amount else 0)
  {
    BalancesBounded(w, to, to);
    var acc := Lookup(w, to);
    PutSupply(w, to, acc.(balance := acc.balance + amount));
  }

  lemma IncrementNonceSupply(w: World, a: Address)
    ensures Supply(IncrementNonce(w, a)) == Supply(w)
  {
    var acc := Lookup(w, a);
    PutSupply(w, a, acc.(nonce := (acc.nonce + 1) % TWO64));
  }

  // ---- worlds that differ only in one contract's storage ----------------------

  /** `w'` is `w` with, at most, other storage at `c` (which may have come into being). */
  ghost predicate OnlyStorageOf(c: Address, w: World, w': World) {
    && w'.code == w.code
    && w'.accounts.Keys <= w.accounts.Keys + {c}
    && w.accounts.Keys <= w'.accounts.Keys
    && (forall a <- w.accounts :: a != c ==> w'.accounts[a] == w.accounts[a])
    && (c in w'.accounts ==>
          w'.accounts[c] == Lookup(w, c).(storage := w'.accounts[c].storage))
  }

  lemma OnlyStorageSupply(c: Address, w: World, w': World)
    requires OnlyStorageOf(c, w, w')
    ensures Supply(w') == Supply(w)
    ensures forall a :: Balance(w', a) == Balance(w, a) && Nonce(w', a) == Nonce(w, a)
  {
    if c in w'.accounts {
      assert w'.accounts == w.accounts[c := w'.accounts[c]];
      SumUpdate(w.accounts, c, w'.accounts[c]);
    } else {
      assert w'.accounts == w.accounts;
    }
  }
}
