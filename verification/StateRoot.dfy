/** The state root: a hash over the accounts in address order, whatever order the map yields them in. */
module StateRoot {
  import opened Basics
  import opened Types
  import opened Accounts
  import opened WorldObjects

  /** An account's serialization, or `None` if encoding fails and the account is skipped. */
  type Encoding = Account -> Option<seq<Byte>>

  // ---- the address order ------------------------------------------------------------

  /** Byte-by-byte comparison of equally long strings is comparison of the numbers they spell. */
  ghost predicate Before(a: Address, b: Address) { FromBytes(a) < FromBytes(b) }

  lemma {:induction false} FromBytesAppend(x: seq<Byte>, y: seq<Byte>)
    ensures FromBytes(x + y) == FromBytes(x) * Pow256(|y|) + FromBytes(y)
    decreases |y|
  {
    if y == [] {
      assert x + y == x;
    } else {
      var n := |y| - 1;
      FromBytesAppend(x, y[..n]);
      assert (x + y)[..|x| + n] == x + y[..n];
      assert 256 * (FromBytes(x) * Pow256(n)) == FromBytes(x) * Pow256(|y|);
    }
  }

  lemma FirstDifference(a: seq<Byte>, b: seq<Byte>, k: nat)
    requires |a| == |b| && k < |a|
    requires a[..k] == b[..k] && a[k] < b[k]
    ensures FromBytes(a) < FromBytes(b)
  {
    var x, y := a[..k + 1], b[..k + 1];
    var p := Pow256(|a| - k - 1);
    assert x[..k] == a[..k] && y[..k] == b[..k];
    assert a == x + a[k + 1..] && b == y + b[k + 1..];
    assert FromBytes(x) + 1 <= FromBytes(y);
    hide FromBytes, Pow256;
    FromBytesAppend(x, a[k + 1..]);
    FromBytesAppend(y, b[k + 1..]);
    FromBytesBound(a[k + 1..]);
    MulMonotone(FromBytes(x) + 1, FromBytes(y), p);
  }

  lemma MulMonotone(i: nat, j: nat, p: nat)
    requires i <= j
    ensures i * p <= j * p
  {}

  method Less(a: Address, b: Address) returns (r: bool)
    ensures r == Before(a, b)
  {
    var k := 0;
    while k < 20
      invariant 0 <= k <= 20
      invariant a[..k] == b[..k]
    {
      if a[k] != b[k] {
        if a[k] < b[k] { FirstDifference(a, b, k); } else { FirstDifference(b, a, k); }
        return a[k] < b[k];
      }
      assert a[..k + 1] == a[..k] + [a[k]];
      assert b[..k + 1] == b[..k] + [b[k]];
      k := k + 1;
    }
    assert a == a[..20] && b == b[..20];
    return false;
  }

  /** The order is total on addresses. */
  lemma Trichotomy(a: Address, b: Address)
    ensures Before(a, b) || Before(b, a) || a == b
  {
    if FromBytes(a) == FromBytes(b) {
      FromBytesInjective(a, b);
    }
  }

  // ---- sorting ---------------------------------------------------------------------------

  ghost predicate Sorted(s: seq<Address>) {
    forall i, j :: 0 <= i < j < |s| ==> Before(s[i], s[j])
  }

  /** A sorted sequence is determined by its elements. */
  lemma {:induction false} SortedUnique(s: seq<Address>, t: seq<Address>)
    requires Sorted(s) && Sorted(t)
    requires forall a :: a in s <==> a in t
    ensures s == t
    decreases |s|
  {
    if t != [] {
      assert t[0] in t;
    }
    if s == [] {
    } else {
      assert s[0] in t;
      assert s[0] == t[0];
      forall a ensures a in s[1..] <==> a in t[1..] {
        InTail(s, a);
        InTail(t, a);
      }
      SortedUnique(s[1..], t[1..]);
    }
  }

  lemma InTail(s: seq<Address>, a: Address)
    requires s != [] && Sorted(s)
    ensures a in s[1..] <==> a in s && a != s[0]
  {}

  method Insert(s: seq<Address>, a: Address) returns (r: seq<Address>)
    requires Sorted(s) && a !in s
    ensures Sorted(r) && forall b :: b in r <==> b in s || b == a
  {
    var i := 0;
    while i < |s|
      invariant 0 <= i <= |s|
      invariant forall j :: 0 <= j < i ==> Before(s[j], a)
    {
      var less := Less(s[i], a);
      if !less { break; }
      i := i + 1;
    }
    if i < |s| {
      Trichotomy(s[i], a);
    }
    r := s[..i] + [a] + s[i..];
    assert s == s[..i] + s[i..];
  }

  // ---- the root ----------------------------------------------------------------------------------

  function Combined(encode: Encoding, accounts: map<Address, Account>, order: seq<Address>): seq<Byte>
    requires forall a <- order :: a in accounts
  {
    if order == [] then []
    else
      var n := |order| - 1;
      var a := order[n];
      Combined(encode, accounts, order[..n])
      + (match encode(accounts[a])
         case None => []
         case Some(data) => a + data)
  }

  /** `h` is the hash of the accounts taken in some address order of exactly the keys. */
  ghost predicate IsRoot(host: Host, encode: Encoding, w: World, h: Hash) {
    exists order ::
      && Sorted(order) && (forall a :: a in order <==> a in w.accounts)
      && h == host.sha256(Combined(encode, w.accounts, order))
  }

  /** There is only one such hash: equal states have equal roots. */
  lemma RootUnique(host: Host, encode: Encoding, w: World, h: Hash, h': Hash)
    requires IsRoot(host, encode, w, h) && IsRoot(host, encode, w, h')
    ensures h == h'
  {
    var order :| && Sorted(order) && (forall a :: a in order <==> a in w.accounts)
                 && h == host.sha256(Combined(encode, w.accounts, order));
    var order' :| && Sorted(order') && (forall a :: a in order' <==> a in w.accounts)
                  && h' == host.sha256(Combined(encode, w.accounts, order'));
    SortedUnique(order, order');
  }

  // ---- what the root commits to ---------------------------------------------------------------------

  /** Every account is encoded, and no encoding is the beginning of another's. */
  ghost predicate PrefixFree(encode: Encoding) {
    && (forall x :: encode(x).Some?)
    && (forall x, y :: encode(x).value <= encode(y).value ==> x == y)
  }

  function Piece(encode: Encoding, accounts: map<Address, Account>, a: Address): seq<Byte>
    requires a in accounts
  {
    match encode(accounts[a])
    case None => []
    case Some(data) => a + data
  }

  lemma CombinedLast(encode: Encoding, accounts: map<Address, Account>, order: seq<Address>)
    requires order != [] && forall a <- order :: a in accounts
    ensures var n := |order| - 1;
            Combined(encode, accounts, order)
            == Combined(encode, accounts, order[..n]) + Piece(encode, accounts, order[n])
  {}

  lemma {:induction false} CombinedFront(encode: Encoding, accounts: map<Address, Account>,
                                         order: seq<Address>)
    requires order != [] && forall a <- order :: a in accounts
    requires encode(accounts[order[0]]).Some?
    ensures Combined(encode, accounts, order)
            == order[0] + encode(accounts[order[0]]).value + Combined(encode, accounts, order[1..])
    decreases |order|
  {
    var n := |order| - 1;
    if n == 0 {
      assert order[..0] == [] && order[1..] == [];
      assert Combined(encode, accounts, []) == [];
    } else {
      CombinedFront(encode, accounts, order[..n]);
      assert order[..n][1..] == order[1..][..n - 1];
      CombinedLast(encode, accounts, order);
      CombinedLast(encode, accounts, order[1..]);
      hide Combined;
    }
  }

  /** Of two beginnings of one string, one begins the other. */
  lemma OneBegins(x: seq<Byte>, xs: seq<Byte>, y: seq<Byte>, ys: seq<Byte>)
    requires x + xs == y + ys
    ensures x <= y || y <= x
  {
    var all := x + xs;
    assert x == all[..|x|] && y == all[..|y|];
  }

  /** The hashed bytes determine the addresses and their accounts. */
  lemma {:induction false} CombinedInjective(encode: Encoding, x: map<Address, Account>, xs: seq<Address>,
                                             y: map<Address, Account>, ys: seq<Address>)
    requires PrefixFree(encode)
    requires (forall a <- xs :: a in x) && (forall a <- ys :: a in y)
    requires Combined(encode, x, xs) == Combined(encode, y, ys)
    ensures xs == ys && forall a <- xs :: x[a] == y[a]
    decreases |xs|
  {
    hide Combined, PrefixFree;
    if xs == [] || ys == [] {
      NothingCombined(encode, x, xs);
      NothingCombined(encode, y, ys);
    } else {
      AllEncoded(encode, x[xs[0]], y[ys[0]]);
      CombinedFront(encode, x, xs);
      CombinedFront(encode, y, ys);
      var dx, dy := encode(x[xs[0]]).value, encode(y[ys[0]]).value;
      var rx, ry := Combined(encode, x, xs[1..]), Combined(encode, y, ys[1..]);
      assert xs[0] + dx + rx == xs[0] + (dx + rx) && ys[0] + dy + ry == ys[0] + (dy + ry);
      SameFront(xs[0], dx + rx, ys[0], dy + ry);
      OneBegins(dx, rx, dy, ry);
      SameFront(dx, rx, dy, ry);
      CombinedInjective(encode, x, xs[1..], y, ys[1..]);
      assert xs == [xs[0]] + xs[1..] && ys == [ys[0]] + ys[1..];
    }
  }

  lemma SameFront(x: seq<Byte>, xs: seq<Byte>, y: seq<Byte>, ys: seq<Byte>)
    requires |x| == |y| && x + xs == y + ys
    ensures x == y && xs == ys
  {
    assert x == (x + xs)[..|x|] && y == (y + ys)[..|y|];
    assert xs == (x + xs)[|x|..] && ys == (y + ys)[|y|..];
  }

  lemma AllEncoded(encode: Encoding, x: Account, y: Account)
    requires PrefixFree(encode)
    ensures encode(x).Some? && encode(y).Some?
    ensures encode(x).value <= encode(y).value || encode(y).value <= encode(x).value ==> x == y
  {}

  lemma NothingCombined(encode: Encoding, accounts: map<Address, Account>, order: seq<Address>)
    requires PrefixFree(encode) && forall a <- order :: a in accounts
    ensures Combined(encode, accounts, order) == [] <==> order == []
  {
    hide PrefixFree;
    if order != [] {
      AllEncoded(encode, accounts[order[0]], accounts[order[0]]);
      CombinedFront(encode, accounts, order);
    }
  }

  /** For a prefix-free encoding a root commits to the whole state: two states with one root have the same
      accounts at the same addresses, unless the hash collides. */
  lemma RootCommits(host: Host, encode: Encoding, w: World, w': World, h: Hash)
    requires PrefixFree(encode)
    requires IsRoot(host, encode, w, h) && IsRoot(host, encode, w', h)
    ensures || w.accounts == w'.accounts
            || exists x: seq<Byte>, y: seq<Byte> :: x != y && host.sha256(x) == host.sha256(y)
  {
    hide PrefixFree, Combined;
    var order :| && Sorted(order) && (forall a :: a in order <==> a in w.accounts)
                 && h == host.sha256(Combined(encode, w.accounts, order));
    var order' :| && Sorted(order') && (forall a :: a in order' <==> a in w'.accounts)
                  && h == host.sha256(Combined(encode, w'.accounts, order'));
    var x, y := Combined(encode, w.accounts, order), Combined(encode, w'.accounts, order');
    if x == y {
      CombinedInjective(encode, w.accounts, order, w'.accounts, order');
      assert w.accounts.Keys == w'.accounts.Keys;
    }
  }

  /** The keys, in whatever order the map yields them. */
  method Keys(state: WorldState) returns (addrs: seq<Address>)
    ensures forall a :: a in addrs <==> a in state.accounts
    ensures forall i, j :: 0 <= i < j < |addrs| ==> addrs[i] != addrs[j]
  {
    addrs := [];
    var rest := state.accounts.Keys;
    while rest != {}
      invariant rest <= state.accounts.Keys
      invariant forall a :: a in addrs <==> a in state.accounts && a !in rest
      invariant forall i, j :: 0 <= i < j < |addrs| ==> addrs[i] != addrs[j]
      decreases |rest|
    {
      var a :| a in rest;
      addrs := addrs + [a];
      rest := rest - {a};
    }
  }

  method Sort(addrs: seq<Address>) returns (sorted: seq<Address>)
    requires forall i, j :: 0 <= i < j < |addrs| ==> addrs[i] != addrs[j]
    ensures Sorted(sorted) && forall a :: a in sorted <==> a in addrs
  {
    sorted := [];
    var i := 0;
    while i < |addrs|
      invariant 0 <= i <= |addrs| && Sorted(sorted)
      invariant forall a :: a in sorted <==> a in addrs[..i]
    {
      assert addrs[..i + 1] == addrs[..i] + [addrs[i]];
      sorted := Insert(sorted, addrs[i]);
      i := i + 1;
    }
    assert addrs[..i] == addrs;
  }

  /** Whatever the order of iteration, there is one result. */
  method ComputeRoot(host: Host, encode: Encoding, state: WorldState) returns (h: Hash)
    requires state.Valid()
    ensures IsRoot(host, encode, state.View(), h)
    ensures forall h' :: IsRoot(host, encode, state.View(), h') ==> h' == h
  {
    hide Sorted, Combined, WorldState.View, WorldState.Valid;
    ghost var w := state.View();
    SameKeys(state);
    var addrs := Keys(state);
    addrs := Sort(addrs);
    var combined := Concatenate(encode, state, addrs);
    h := host.sha256(combined);
    Ordered(host, encode, w, addrs);
    hide IsRoot;
    forall h' | IsRoot(host, encode, w, h') ensures h' == h {
      RootUnique(host, encode, w, h, h');
    }
  }

  lemma SameKeys(state: WorldState)
    requires state.Valid()
    ensures forall a :: a in state.View().accounts <==> a in state.accounts
  {}

  lemma Ordered(host: Host, encode: Encoding, w: World, order: seq<Address>)
    requires Sorted(order) && forall a :: a in order <==> a in w.accounts
    ensures IsRoot(host, encode, w, host.sha256(Combined(encode, w.accounts, order)))
  {}

  method Concatenate(encode: Encoding, state: WorldState, addrs: seq<Address>) returns (combined: seq<Byte>)
    requires state.Valid()
    requires forall a <- addrs :: a in state.View().accounts
    ensures combined == Combined(encode, state.View().accounts, addrs)
  {
    hide AccountRecord.View;
    ghost var accounts := state.View().accounts;
    combined := [];
    var i := 0;
    while i < |addrs|
      invariant 0 <= i <= |addrs|
      invariant combined == Combined(encode, accounts, addrs[..i])
    {
      var a := addrs[i];
      assert addrs[..i + 1][..i] == addrs[..i];
      assert a in accounts && accounts[a] == state.accounts[a].View();
      var acc := state.accounts[a].Read();
      match encode(acc) {
        case None =>
        case Some(data) => combined := combined + (a + data);
      }
      i := i + 1;
    }
    assert addrs[..i] == addrs;
  }
}
