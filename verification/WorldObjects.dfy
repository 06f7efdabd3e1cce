/** The world state in its own form: account records held by reference, byte slices shared between them. */
module WorldObjects {
  import opened Basics
  import opened Types
  import opened Accounts

  class AccountRecord {
    ghost const owner: Address    // the one address it is filed under
    var nonce: U64
    var balance: U64
    var codeHash: Hash
    var storageRoot: Hash
    var storage: map<Hash, array<Byte>>

    ghost function View(): Account
      reads this, storage.Values
    {
      Account(nonce, balance, codeHash, storageRoot, map k | k in storage :: storage[k][..])
    }

    /** The same slices, unwritten, read the same. */
    twostate lemma StorageKept()
      requires storage == old(storage)
      requires forall k <- storage :: unchanged(storage[k])
      ensures View().storage == old(View()).storage
    {
      forall k <- storage ensures storage[k][..] == old(storage[k][..]) {}
    }

    twostate lemma StorageSet(key: Hash)
      requires key in storage && storage == old(storage)[key := storage[key]]
      requires forall k <- old(storage) :: unchanged(old(storage)[k])
      requires nonce == old(nonce) && balance == old(balance)
      requires codeHash == old(codeHash) && storageRoot == old(storageRoot)
      ensures View() == old(View()).(storage := old(View()).storage[key := storage[key][..]])
    {
      forall k <- storage | k != key ensures storage[k][..] == old(storage[k][..]) {}
      assert View().storage == old(View()).storage[key := storage[key][..]];
    }

    constructor (balance: U64, ghost owner: Address)
      ensures View() == NewAccount(balance) && storage == map[] && this.owner == owner
    {
      this.owner := owner;
      nonce, this.balance, codeHash, storageRoot, storage := 0, balance, 0, 0, map[];
    }

    method Read() returns (acc: Account)
      ensures acc == View()
    {
      acc := Account(nonce, balance, codeHash, storageRoot, map k | k in storage :: storage[k][..]);
    }

    /** Field by field equal, slices by reference. */
    ghost predicate Same(other: AccountRecord)
      reads this, other
    {
      && nonce == other.nonce && balance == other.balance
      && codeHash == other.codeHash && storageRoot == other.storageRoot
      && storage == other.storage
    }

    /** A new record on the same slices. */
    method DeepCopy() returns (copy: AccountRecord)
      ensures fresh(copy) && copy.Same(this) && copy.owner == owner
    {
      var copied: map<Hash, array<Byte>> := map[];
      var rest := storage.Keys;
      while rest != {}
        invariant rest <= storage.Keys
        invariant copied.Keys == storage.Keys - rest
        invariant forall k <- copied :: copied[k] == storage[k]
        decreases |rest|
      {
        var k :| k in rest;
        copied := copied[k := storage[k]];
        rest := rest - {k};
      }
      assert copied == storage;
      copy := new AccountRecord(balance, owner);
      copy.nonce, copy.codeHash, copy.storageRoot, copy.storage := nonce, codeHash, storageRoot, copied;
    }
  }

  class WorldState {
    var accounts: map<Address, AccountRecord>
    var contractCode: map<Hash, array<Byte>>
    ghost var records: set<AccountRecord>
    ghost var slices: set<array<Byte>>

    /** No two addresses share a record; slices may be shared freely, also with other states. */
    ghost predicate Valid()
      reads this, records
    {
      && (forall a <- accounts :: accounts[a] in records && accounts[a].owner == a)
      && (forall a, k :: a in accounts && k in accounts[a].storage ==> accounts[a].storage[k] in slices)
      && (forall h <- contractCode :: contractCode[h] in slices)
    }

    ghost function View(): World
      requires Valid()
      reads this, records, slices
    {
      World(map a | a in accounts :: accounts[a].View(),
            map h | h in contractCode :: contractCode[h][..])
    }

    constructor ()
      ensures Valid() && View() == EMPTY_WORLD && records == {} && slices == {}
    {
      accounts, contractCode := map[], map[];
      records, slices := {}, {};
    }

    constructor Of(accounts: map<Address, AccountRecord>, code: map<Hash, array<Byte>>,
                   ghost records: set<AccountRecord>, ghost slices: set<array<Byte>>)
      requires forall a <- accounts :: accounts[a] in records && accounts[a].owner == a
      requires forall a, k :: a in accounts && k in accounts[a].storage ==> accounts[a].storage[k] in slices
      requires forall h <- code :: code[h] in slices
      ensures Valid() && this.records == records
      ensures this.accounts == accounts && this.contractCode == code
    {
      this.accounts, this.contractCode := accounts, code;
      this.records, this.slices := records, slices;
    }

    /** Writing to, or adding, one record changes the state at its address only. */
    twostate lemma Touched(a: Address)
      requires old(Valid()) && Valid()
      requires a in accounts && contractCode == old(contractCode)
      requires accounts == old(accounts)[a := accounts[a]]
      requires forall b <- accounts :: b != a ==> unchanged(accounts[b])
      requires forall s <- old(slices) :: unchanged(s)
      ensures View() == Put(old(View()), a, accounts[a].View())
    {
      SameCode();
      forall b <- accounts | b != a ensures accounts[b].View() == old(accounts[b].View()) {
        accounts[b].StorageKept();
      }
      SameAccounts(a);
    }

    twostate lemma SameAccounts(a: Address)
      requires old(Valid()) && Valid()
      requires a in accounts && accounts == old(accounts)[a := accounts[a]]
      requires forall b <- accounts :: b != a ==> accounts[b].View() == old(accounts[b].View())
      ensures View().accounts == old(View()).accounts[a := accounts[a].View()]
    {
      hide AccountRecord.View;
    }

    twostate lemma SameCode()
      requires old(Valid()) && Valid()
      requires contractCode == old(contractCode)
      requires forall s <- old(slices) :: unchanged(s)
      ensures View().code == old(View()).code
    {
      hide AccountRecord.View;
      forall h <- contractCode ensures contractCode[h][..] == old(contractCode[h][..]) {}
    }

    method GetOrCreateAccount(a: Address) returns (acc: AccountRecord)
      requires Valid()
      modifies this
      ensures Valid() && a in accounts && accounts[a] == acc
      ensures acc.View() == Lookup(old(View()), a)
      ensures View() == Put(old(View()), a, acc.View())
      ensures acc in records && fresh(records - old(records)) && slices == old(slices)
      ensures accounts == old(accounts)[a := acc] && contractCode == old(contractCode)
      ensures a in old(accounts) ==> acc == old(accounts)[a]
    {
      hide AccountRecord.View;
      if a in accounts {
        acc := accounts[a];
      } else {
        acc := new AccountRecord(0, a);
        accounts := accounts[a := acc];
        records := records + {acc};
        Touched(a);
      }
    }

    lemma Sees(a: Address)
      requires Valid()
      ensures a in View().accounts <==> a in accounts
      ensures a in accounts ==>
                && accounts[a] in records
                && View().accounts[a] == accounts[a].View()
                && View().accounts[a].balance == accounts[a].balance
    {}

    /** Assigning the balance field of the record at `a`. */
    method WriteBalance(a: Address, acc: AccountRecord, balance: U64)
      requires Valid() && a in accounts && accounts[a] == acc
      modifies acc
      ensures Valid() && a in View().accounts
      ensures View() == Put(old(View()), a, old(View()).accounts[a].(balance := balance))
      ensures acc.balance == balance
    {
      hide View;
      Sees(a);
      acc.balance := balance;
      acc.StorageKept();
      Touched(a);
    }

    method AddBalance(a: Address, amount: U64)
      requires Valid()
      modifies this, records
      ensures Valid() && View() == Accounts.AddBalance(old(View()), a, amount)
      ensures fresh(records - old(records)) && slices == old(slices)
    {
      hide View, Valid, AccountRecord.View;
      var acc := GetOrCreateAccount(a);
      Sees(a);
      WriteBalance(a, acc, (acc.balance + amount) % TWO64);
    }

    method IncrementNonce(a: Address)
      requires Valid()
      modifies this, records
      ensures Valid() && View() == Accounts.IncrementNonce(old(View()), a)
      ensures fresh(records - old(records)) && slices == old(slices)
    {
      hide View;
      var acc := GetOrCreateAccount(a);
      Sees(a);
      label L:
      acc.nonce := (acc.nonce + 1) % TWO64;
      acc.StorageKept@L();
      Touched@L(a);
    }

    method Transfer(from: Address, to: Address, value: U64) returns (error: Option<TransferError>)
      requires Valid()
      modifies this, records
      ensures Valid()
      ensures match Accounts.Transfer(old(View()), from, to, value)
              case Moved(w) => error.None? && View() == w
              case Refused(e) => error == Some(e) && View() == old(View())
      ensures fresh(records - old(records)) && slices == old(slices)
    {
      hide View, Valid, AccountRecord.View;
      Sees(from);
      if value == 0 { return Some(ZeroValue); }
      if from !in accounts { return Some(NoSender); }
      var fromAcc := accounts[from];
      if fromAcc.balance < value { return Some(Insufficient); }
      var toAcc := GetOrCreateAccount(to);
      Sees(from);
      WriteBalance(from, fromAcc, fromAcc.balance - value);
      Sees(to);
      WriteBalance(to, toAcc, (toAcc.balance + value) % TWO64);
      return None;
    }

    method SetAccountState(a: Address, key: Hash, value: array<Byte>)
      requires Valid()
      modifies this, records
      ensures Valid() && View() == Accounts.SetAccountState(old(View()), a, key, value[..])
      ensures fresh(records - old(records)) && slices == old(slices) + {value}
    {
      hide View, Valid, AccountRecord.View;
      var acc := GetOrCreateAccount(a);
      Sees(a);
      WriteStorage(a, acc, key, value);
    }

    method WriteStorage(a: Address, acc: AccountRecord, key: Hash, value: array<Byte>)
      requires Valid() && a in accounts && accounts[a] == acc
      modifies acc, this`slices
      ensures Valid() && a in View().accounts && slices == old(slices) + {value}
      ensures var was := old(View()).accounts[a];
              View() == Put(old(View()), a, was.(storage := was.storage[key := value[..]]))
    {
      hide View, AccountRecord.View;
      Sees(a);
      acc.storage := acc.storage[key := value];
      slices := slices + {value};
      acc.StorageSet(key);
      Touched(a);
    }

    method GetAccountState(a: Address, key: Hash) returns (value: array?<Byte>)
      requires Valid()
      ensures match Accounts.GetAccountState(View(), a, key)
              case None => value == null
              case Some(bytes) => value != null && value[..] == bytes
    {
      if a !in accounts { return null; }
      if key !in accounts[a].storage { return null; }
      return accounts[a].storage[key];
    }

    /** The caller's slice is kept by reference. */
    method SetCode(host: Host, a: Address, code: array<Byte>)
      requires Valid()
      modifies this, records
      ensures Valid() && View() == Accounts.SetCode(host, old(View()), a, code[..])
      ensures fresh(records - old(records)) && slices == old(slices) + {code}
    {
      hide View, AccountRecord.View;
      var acc := GetOrCreateAccount(a);
      Sees(a);
      var h := host.sha256(code[..]);
      WriteCodeHash(a, acc, h);
      label M:
      contractCode := contractCode[h := code];
      slices := slices + {code};
      CodeSet@M(h);
    }

    method WriteCodeHash(a: Address, acc: AccountRecord, h: Hash)
      requires Valid() && a in accounts && accounts[a] == acc
      modifies acc
      ensures Valid() && a in View().accounts
      ensures View() == Put(old(View()), a, old(View()).accounts[a].(codeHash := h))
    {
      hide View;
      Sees(a);
      acc.codeHash := h;
      acc.StorageKept();
      Touched(a);
    }

    twostate lemma CodeSet(h: Hash)
      requires old(Valid()) && Valid()
      requires accounts == old(accounts)
      requires h in contractCode && contractCode == old(contractCode)[h := contractCode[h]]
      requires forall a <- accounts :: unchanged(accounts[a])
      requires forall s <- old(slices) :: unchanged(s)
      ensures View() == old(View()).(code := old(View()).code[h := contractCode[h][..]])
    {
      forall a <- accounts ensures accounts[a].View() == old(accounts[a].View()) {
        accounts[a].StorageKept();
      }
      hide AccountRecord.View;
      forall k <- contractCode | k != h ensures contractCode[k][..] == old(contractCode[k][..]) {}
      assert View().accounts == old(View()).accounts;
      assert View().code == old(View()).code[h := contractCode[h][..]];
    }

    /** A state of its own, equal to this one: new records and new code slices, storage slices shared. */
    method Copy() returns (copy: WorldState)
      requires Valid()
      ensures fresh(copy) && copy.Valid() && copy.View() == View()
      ensures fresh(copy.records)
    {
      hide AccountRecord.View, View;
      var records', made := CopyAccounts();
      var code := CopyCode();
      copy := new WorldState.Of(records', code, made, slices + code.Values);
      SameView(copy);
    }

    lemma SameView(copy: WorldState)
      requires Valid() && copy.Valid()
      requires copy.accounts.Keys == accounts.Keys
      requires forall a <- accounts :: copy.accounts[a].Same(accounts[a])
      requires copy.contractCode.Keys == contractCode.Keys
      requires forall h <- contractCode :: copy.contractCode[h][..] == contractCode[h][..]
      ensures copy.View() == View()
    {
      forall a <- accounts ensures copy.accounts[a].View() == accounts[a].View() {
        assert copy.accounts[a].Same(accounts[a]);
      }
      hide AccountRecord.View;
      assert copy.View().accounts == View().accounts;
      assert copy.View().code == View().code;
    }

    method CopyAccounts() returns (copied: map<Address, AccountRecord>, ghost made: set<AccountRecord>)
      requires Valid()
      ensures fresh(made) && copied.Keys == accounts.Keys
      ensures forall a <- copied ::
                copied[a] in made && copied[a].owner == a && copied[a].Same(accounts[a])
    {
      hide AccountRecord.Same;
      copied, made := map[], {};
      var rest := accounts.Keys;
      while rest != {}
        invariant rest <= accounts.Keys && fresh(made)
        invariant copied.Keys == accounts.Keys - rest
        invariant forall a <- copied ::
                    copied[a] in made && copied[a].owner == a && copied[a].Same(accounts[a])
        decreases |rest|
      {
        var a :| a in rest;
        var acc := accounts[a].DeepCopy();
        copied := copied[a := acc];
        made := made + {acc};
        rest := rest - {a};
      }
    }

    method CopyCode() returns (copied: map<Hash, array<Byte>>)
      requires Valid()
      ensures copied.Keys == contractCode.Keys
      ensures forall h <- copied :: copied[h][..] == contractCode[h][..]
    {
      hide Valid;
      copied := map[];
      var rest := contractCode.Keys;
      while rest != {}
        invariant rest <= contractCode.Keys
        invariant copied.Keys == contractCode.Keys - rest
        invariant forall h <- copied :: copied[h][..] == contractCode[h][..]
        decreases |rest|
      {
        var h :| h in rest;
        var code := contractCode[h];
        var codeCopy := new Byte[code.Length](i requires 0 <= i < code.Length reads code => code[i]);
        assert codeCopy[..] == code[..];
        copied := copied[h := codeCopy];
        rest := rest - {h};
      }
    }
  }
}
