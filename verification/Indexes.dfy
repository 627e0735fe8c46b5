/**
 * Indexes that are kept up to date as objects change: who mentions an account, key or
 * address in an authority, and the balances of each account in chunks.
 */
module Indexes {
  import opened Wrappers

  type AccountId = nat
  type Key = nat
  type Address = nat
  type Asset = nat

  /** Everyone who is part of an authority, with their weights. */
  datatype Authority = Authority(accounts: map<AccountId, nat>, keys: map<Key, nat>, addresses: map<Address, nat>)

  datatype AccountObject = AccountObject(id: AccountId, owner: Authority, active: Authority, memoKey: Key) {
    function AccountMembers(): set<AccountId> {
      owner.accounts.Keys + active.accounts.Keys
    }

    function KeyMembers(): set<Key> {
      owner.keys.Keys + active.keys.Keys + {memoKey}
    }

    function AddressMembers(): set<Address> {
      owner.addresses.Keys + active.addresses.Keys
    }
  }

  /** A missing key stands for the empty set. */
  function Lookup<K(==)>(m: map<K, set<AccountId>>, k: K): set<AccountId> {
    if k in m then m[k] else {}
  }

  /** An account is under exactly the keys in its set of members. */
  ghost predicate Mirrors(m: map<nat, set<AccountId>>, members: map<AccountId, set<nat>>) {
    forall k: nat, a: AccountId :: a in Lookup(m, k) <==> a in members && k in members[a]
  }

  method InsertUnder(m: map<nat, set<AccountId>>, keys: set<nat>, id: AccountId) returns (r: map<nat, set<AccountId>>)
    ensures forall k: nat, a: AccountId :: a in Lookup(r, k) <==> a in Lookup(m, k) || (a == id && k in keys)
  {
    r := m;
    var rest := keys;
    while rest != {}
      invariant rest <= keys
      invariant forall k: nat, a: AccountId :: a in Lookup(r, k) <==> a in Lookup(m, k) || (a == id && k in keys && k !in rest)
      decreases |rest|
    {
      var k :| k in rest;
      ghost var was := r;
      r := r[k := Lookup(r, k) + {id}];
      assert forall j: nat :: Lookup(r, j) == if j == k then Lookup(was, j) + {id} else Lookup(was, j);
      rest := rest - {k};
    }
  }

  method EraseUnder(m: map<nat, set<AccountId>>, keys: set<nat>, id: AccountId) returns (r: map<nat, set<AccountId>>)
    ensures forall k: nat, a: AccountId :: a in Lookup(r, k) <==> a in Lookup(m, k) && !(a == id && k in keys)
  {
    r := m;
    var rest := keys;
    while rest != {}
      invariant rest <= keys
      invariant forall k: nat, a: AccountId :: a in Lookup(r, k) <==> a in Lookup(m, k) && !(a == id && k in keys && k !in rest)
      decreases |rest|
    {
      var k :| k in rest;
      ghost var was := r;
      r := r[k := Lookup(r, k) - {id}];
      assert forall j: nat :: Lookup(r, j) == if j == k then Lookup(was, j) - {id} else Lookup(was, j);
      rest := rest - {k};
    }
  }

  method Add(m: map<nat, set<AccountId>>, keys: set<nat>, id: AccountId, ghost members: map<AccountId, set<nat>>)
    returns (r: map<nat, set<AccountId>>)
    requires Mirrors(m, members) && id !in members
    ensures Mirrors(r, members[id := keys])
  {
    r := InsertUnder(m, keys, id);
  }

  method Drop(m: map<nat, set<AccountId>>, keys: set<nat>, id: AccountId, ghost members: map<AccountId, set<nat>>)
    returns (r: map<nat, set<AccountId>>)
    requires Mirrors(m, members) && id in members && members[id] == keys
    ensures Mirrors(r, members - {id})
  {
    r := EraseUnder(m, keys, id);
  }

  /** Moves an account from the keys it was under to those it is under now, touching only the difference. */
  method Move(m: map<nat, set<AccountId>>, before: set<nat>, after: set<nat>, id: AccountId, ghost members: map<AccountId, set<nat>>)
    returns (r: map<nat, set<AccountId>>)
    requires Mirrors(m, members) && id in members && members[id] == before
    ensures Mirrors(r, members[id := after])
  {
    r := EraseUnder(m, before - after, id);
    r := InsertUnder(r, after - before, id);
  }

  ghost function AccountMembers(table: map<AccountId, AccountObject>): map<AccountId, set<AccountId>> {
    map a | a in table :: table[a].AccountMembers()
  }

  ghost function KeyMembers(table: map<AccountId, AccountObject>): map<AccountId, set<Key>> {
    map a | a in table :: table[a].KeyMembers()
  }

  ghost function AddressMembers(table: map<AccountId, AccountObject>): map<AccountId, set<Address>> {
    map a | a in table :: table[a].AddressMembers()
  }

  lemma MembersChange(table: map<AccountId, AccountObject>, a: AccountObject)
    ensures AccountMembers(table[a.id := a]) == AccountMembers(table)[a.id := a.AccountMembers()]
    ensures KeyMembers(table[a.id := a]) == KeyMembers(table)[a.id := a.KeyMembers()]
    ensures AddressMembers(table[a.id := a]) == AddressMembers(table)[a.id := a.AddressMembers()]
  {
    hide AccountObject.AccountMembers, AccountObject.KeyMembers, AccountObject.AddressMembers;
  }

  lemma MembersGo(table: map<AccountId, AccountObject>, id: AccountId)
    ensures AccountMembers(table - {id}) == AccountMembers(table) - {id}
    ensures KeyMembers(table - {id}) == KeyMembers(table) - {id}
    ensures AddressMembers(table - {id}) == AddressMembers(table) - {id}
  {
    hide AccountObject.AccountMembers, AccountObject.KeyMembers, AccountObject.AddressMembers;
  }

  lemma MirrorsLookup(m: map<nat, set<AccountId>>, members: map<AccountId, set<nat>>, k: nat)
    requires Mirrors(m, members)
    ensures Lookup(m, k) == set a | a in members && k in members[a]
  {
  }

  class MemberIndex {
    var byAccount: map<AccountId, set<AccountId>>
    var byKey: map<Key, set<AccountId>>
    var byAddress: map<Address, set<AccountId>>
    /** The members of the account that is being modified. */
    var beforeAccounts: set<AccountId>
    var beforeKeys: set<Key>
    var beforeAddresses: set<Address>
    /** All accounts. */
    ghost var table: map<AccountId, AccountObject>

    constructor ()
      ensures Valid() && table == map[]
    {
      byAccount, byKey, byAddress, beforeAccounts, beforeKeys, beforeAddresses, table := map[], map[], map[], {}, {}, {}, map[];
    }

    ghost predicate Valid()
      reads this`byAccount, this`byKey, this`byAddress, this`table
    {
      && (forall a :: a in table ==> table[a].id == a)
      && Mirrors(byAccount, AccountMembers(table)) && Mirrors(byKey, KeyMembers(table)) && Mirrors(byAddress, AddressMembers(table))
    }

    /** Each map gives exactly the accounts that mention the key in an authority or as memo key. */
    lemma LookupIsRecomputed(k: nat)
      requires Valid()
      ensures Lookup(byAccount, k) == set a | a in table && k in table[a].AccountMembers()
      ensures Lookup(byKey, k) == set a | a in table && k in table[a].KeyMembers()
      ensures Lookup(byAddress, k) == set a | a in table && k in table[a].AddressMembers()
    {
      hide AccountObject.AccountMembers, AccountObject.KeyMembers, AccountObject.AddressMembers, Mirrors;
      MirrorsLookup(byAccount, AccountMembers(table), k);
      MirrorsLookup(byKey, KeyMembers(table), k);
      MirrorsLookup(byAddress, AddressMembers(table), k);
    }

    /** What `AboutToModify` leaves for `Modified`. */
    ghost predicate Noted(id: AccountId)
      reads this
    {
      && id in table && beforeAccounts == table[id].AccountMembers()
      && beforeKeys == table[id].KeyMembers() && beforeAddresses == table[id].AddressMembers()
    }

    method Inserted(a: AccountObject)
      requires Valid() && a.id !in table
      modifies this
      ensures Valid() && table == old(table)[a.id := a]
    {
      hide Mirrors, AccountObject.AccountMembers, AccountObject.KeyMembers, AccountObject.AddressMembers;
      MembersChange(table, a);
      byAccount := Add(byAccount, a.AccountMembers(), a.id, AccountMembers(table));
      byKey := Add(byKey, a.KeyMembers(), a.id, KeyMembers(table));
      byAddress := Add(byAddress, a.AddressMembers(), a.id, AddressMembers(table));
      table := table[a.id := a];
    }

    method Removed(a: AccountObject)
      requires Valid() && a.id in table && table[a.id] == a
      modifies this
      ensures Valid() && table == old(table) - {a.id}
    {
      hide Mirrors, AccountObject.AccountMembers, AccountObject.KeyMembers, AccountObject.AddressMembers;
      MembersGo(table, a.id);
      byKey := Drop(byKey, a.KeyMembers(), a.id, KeyMembers(table));
      byAddress := Drop(byAddress, a.AddressMembers(), a.id, AddressMembers(table));
      byAccount := Drop(byAccount, a.AccountMembers(), a.id, AccountMembers(table));
      table := table - {a.id};
    }

    method AboutToModify(a: AccountObject)
      requires Valid() && a.id in table && table[a.id] == a
      modifies this`beforeAccounts, this`beforeKeys, this`beforeAddresses
      ensures Noted(a.id)
    {
      beforeKeys, beforeAddresses, beforeAccounts := a.KeyMembers(), a.AddressMembers(), a.AccountMembers();
    }

    method Modified(a: AccountObject)
      requires Valid() && Noted(a.id)
      modifies this
      ensures Valid() && table == old(table)[a.id := a]
    {
      hide Mirrors, AccountObject.AccountMembers, AccountObject.KeyMembers, AccountObject.AddressMembers;
      MembersChange(table, a);
      byAccount := Move(byAccount, beforeAccounts, a.AccountMembers(), a.id, AccountMembers(table));
      byKey := Move(byKey, beforeKeys, a.KeyMembers(), a.id, KeyMembers(table));
      byAddress := Move(byAddress, beforeAddresses, a.AddressMembers(), a.id, AddressMembers(table));
      table := table[a.id := a];
    }
  }

  /** The balance table is allocated in chunks of this many accounts. */
  const CHUNK: nat := 0x10_0000

  class BalanceIndex<T> {
    var chunks: seq<seq<map<Asset, T>>>
    /** The balance objects, by owner and asset. */
    ghost var flat: map<(AccountId, Asset), T>

    constructor ()
      ensures Valid() && flat == map[]
    {
      chunks, flat := [], map[];
    }

    ghost predicate Shaped()
      reads this`chunks
    {
      forall i :: 0 <= i < |chunks| ==> |chunks[i]| == CHUNK
    }

    /** The balances filed for an account, none if its chunk was never allocated. */
    function Of(owner: AccountId): map<Asset, T>
      requires Shaped()
      reads this`chunks
    {
      if |chunks| < owner / CHUNK + 1 then map[] else chunks[owner / CHUNK][owner % CHUNK]
    }

    ghost predicate Valid()
      reads this
    {
      && Shaped()
      && (forall o: AccountId, a: Asset :: a in Of(o) <==> (o, a) in flat)
      && (forall o: AccountId, a: Asset :: (o, a) in flat ==> Of(o)[a] == flat[(o, a)])
    }

    /** Splitting an owner into chunk and place loses nothing. */
    lemma SplitIsUnique(o: AccountId, p: AccountId)
      ensures o / CHUNK == p / CHUNK && o % CHUNK == p % CHUNK ==> o == p
    {
    }

    method Allocate(owner: AccountId)
      requires Shaped()
      modifies this`chunks
      ensures Shaped() && |chunks| > owner / CHUNK
      ensures forall o: AccountId :: Of(o) == old(Of(o))
    {
      while |chunks| < owner / CHUNK + 1
        invariant Shaped() && old(chunks) <= chunks
        invariant forall i :: old(|chunks|) <= i < |chunks| ==> forall j :: 0 <= j < CHUNK ==> chunks[i][j] == map[]
      {
        chunks := chunks + [seq(CHUNK, _ => map[])];
      }
    }

    method Inserted(owner: AccountId, asset: Asset, t: T)
      requires Valid()
      modifies this
      ensures Valid() && flat == old(flat)[(owner, asset) := t]
    {
      Allocate(owner);
      Replace(owner, Of(owner)[asset := t]);
      flat := flat[(owner, asset) := t];
    }

    /** Files new balances for one account. */
    method Replace(owner: AccountId, m: map<Asset, T>)
      requires Shaped() && |chunks| > owner / CHUNK
      modifies this`chunks
      ensures Shaped() && forall o: AccountId :: Of(o) == if o == owner then m else old(Of(o))
    {
      var c, i := owner / CHUNK, owner % CHUNK;
      forall o: AccountId { SplitIsUnique(o, owner); }
      chunks := chunks[c := chunks[c][i := m]];
    }

    method Removed(owner: AccountId, asset: Asset)
      requires Valid()
      modifies this
      ensures Valid() && flat == old(flat) - {(owner, asset)}
    {
      if |chunks| >= owner / CHUNK + 1 {
        Replace(owner, Of(owner) - {asset});
      }
      flat := flat - {(owner, asset)};
    }

    method Get(owner: AccountId, asset: Asset) returns (r: Option<T>)
      requires Valid()
      ensures r == if (owner, asset) in flat then Some(flat[(owner, asset)]) else None
    {
      if |chunks| < owner / CHUNK + 1 { return None; }
      var mine := Of(owner);
      return if asset in mine then Some(mine[asset]) else None;
    }
  }
}
