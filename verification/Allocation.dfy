/** The account pool and the directory of lock files shared by the test processes.
*/
module Allocation {
  import opened Options
  import Credentials

  type Hash = string

  type Account = map<Credentials.Attr, string>

  /** An entry of the accounts file; the digest is taken of the attributes alone. */
  datatype Listing = Listing(attributes: Account, roles: seq<string>, types: seq<string>)

  datatype Version = V2 | V3

  /** The configuration with a provider's identity version, and of the surroundings:
      the digest, and the domain, if any, that the identity service scopes an account's
      tokens to. */
  datatype Config = Config(adminRole: string, operatorRole: string, resellerRole: string,
                           domain: string, version: Version, digest: Account -> Hash,
                           scope: Account -> Option<Credentials.Domain>) {

    function For(v: Version): Config {
      this.(version := v)
    }
  }

  // ----- get_hash_dict -----

  datatype Pool = Pool(creds: map<Hash, Account>, roles: map<string, seq<Hash>>) {

    predicate HasRole(h: Hash, role: string) {
      role in roles && h in roles[role]
    }

    /** Every role list is non-empty and lists accounts of the pool. */
    predicate Valid() {
      forall r :: r in roles ==> roles[r] != [] && forall h :: h in roles[r] ==> h in creds
    }
  }

  function AppendRole(roles: map<string, seq<Hash>>, role: string, h: Hash): map<string, seq<Hash>> {
    roles[role := (if role in roles then roles[role] else []) + [h]]
  }

  /** The role a type stands for. */
  function TypeRole(c: Config, t: string): Option<string> {
    if t == "admin" then Some(c.adminRole)
    else if t == "operator" then Some(c.operatorRole)
    else if t == "reseller_admin" then Some(c.resellerRole)
    else None
  }

  /** What the accounts file says: an entry with this digest lists the role, or a
      type that stands for it. */
  ghost predicate Grants(c: Config, a: Listing, role: string) {
    role in a.roles || Stands(c, a.types, role)
  }

  ghost predicate Granted(c: Config, accounts: seq<Listing>, h: Hash, role: string) {
    exists a :: a in accounts && c.digest(a.attributes) == h && Grants(c, a, role)
  }

  ghost predicate IsListed(c: Config, accounts: seq<Listing>, h: Hash, attributes: Account) {
    c.digest(attributes) == h && exists a :: a in accounts && a.attributes == attributes
  }

  ghost predicate Describes(c: Config, accounts: seq<Listing>, pool: Pool) {
    && pool.Valid()
    && (forall h :: h in pool.creds <==> exists a :: a in accounts && c.digest(a.attributes) == h)
    && (forall h :: h in pool.creds ==> IsListed(c, accounts, h, pool.creds[h]))
    && forall h, r :: pool.HasRole(h, r) <==> Granted(c, accounts, h, r)
  }

  lemma AppendRoleAdds(pool: Pool, role: string, h: Hash)
    requires pool.Valid() && h in pool.creds
    ensures var pool' := pool.(roles := AppendRole(pool.roles, role, h));
            pool'.Valid() && forall g, r :: pool'.HasRole(g, r) <==> pool.HasRole(g, r) || (g == h && r == role)
  {
    var pool' := pool.(roles := AppendRole(pool.roles, role, h));
    assert h in pool'.roles[role];
  }

  method GetHashDict(c: Config, accounts: seq<Listing>) returns (pool: Pool)
    ensures Describes(c, accounts, pool)
  {
    pool := Pool(map[], map[]);
    for i := 0 to |accounts|
      invariant Describes(c, accounts[..i], pool)
    {
      var a := accounts[i];
      var h := c.digest(a.attributes);
      ghost var pool0 := pool;
      pool := pool.(creds := pool.creds[h := a.attributes]);
      pool := AddRoles(pool, h, a.roles);
      pool := AddTypes(c, pool, h, a.types);
      DescribesOneMore(c, accounts, i, pool0, pool);
    }
    assert accounts[..|accounts|] == accounts;
  }

  method AddRoles(before: Pool, h: Hash, roles: seq<string>) returns (pool: Pool)
    requires before.Valid() && h in before.creds
    ensures pool.Valid() && pool.creds == before.creds
    ensures forall g, r :: pool.HasRole(g, r) <==> before.HasRole(g, r) || (g == h && r in roles)
  {
    pool := before;
    for j := 0 to |roles|
      invariant pool.Valid() && pool.creds == before.creds
      invariant forall g, r :: pool.HasRole(g, r) <==> before.HasRole(g, r) || (g == h && r in roles[..j])
    {
      AppendRoleAdds(pool, roles[j], h);
      pool := pool.(roles := AppendRole(pool.roles, roles[j], h));
    }
    assert roles[..|roles|] == roles;
  }

  ghost predicate Stands(c: Config, types: seq<string>, role: string) {
    exists t :: t in types && TypeRole(c, t) == Some(role)
  }

  method AddTypes(c: Config, before: Pool, h: Hash, types: seq<string>) returns (pool: Pool)
    requires before.Valid() && h in before.creds
    ensures pool.Valid() && pool.creds == before.creds
    ensures forall g, r :: pool.HasRole(g, r) <==> before.HasRole(g, r) || (g == h && Stands(c, types, r))
  {
    pool := before;
    for j := 0 to |types|
      invariant pool.Valid() && pool.creds == before.creds
      invariant forall g, r :: pool.HasRole(g, r) <==> before.HasRole(g, r) || (g == h && Stands(c, types[..j], r))
    {
      var role := TypeRole(c, types[j]);
      StandsOneMore(c, types, j);
      if role.Some? {
        AppendRoleAdds(pool, role.value, h);
        pool := pool.(roles := AppendRole(pool.roles, role.value, h));
      }
    }
    assert types[..|types|] == types;
  }

  lemma StandsOneMore(c: Config, types: seq<string>, j: nat)
    requires j < |types|
    ensures forall r :: Stands(c, types[..j + 1], r) <==> Stands(c, types[..j], r) || TypeRole(c, types[j]) == Some(r)
  {
    assert types[..j + 1] == types[..j] + [types[j]];
  }

  lemma DescribesOneMore(c: Config, accounts: seq<Listing>, i: nat, pool0: Pool, pool: Pool)
    requires i < |accounts| && Describes(c, accounts[..i], pool0) && pool.Valid()
    requires var a := accounts[i];
             var h := c.digest(a.attributes);
             && pool.creds == pool0.creds[h := a.attributes]
             && forall g, r :: pool.HasRole(g, r) <==> pool0.HasRole(g, r) || (g == h && Grants(c, a, r))
    ensures Describes(c, accounts[..i + 1], pool)
  {
    var before, a := accounts[..i], accounts[i];
    assert accounts[..i + 1] == before + [a];
    forall g, r ensures pool.HasRole(g, r) <==> Granted(c, before + [a], g, r) {
      assert Granted(c, before, g, r) <==> pool0.HasRole(g, r);
    }
    forall h ensures h in pool.creds <==> exists b :: b in before + [a] && c.digest(b.attributes) == h {
      assert h in pool0.creds <==> exists b :: b in before && c.digest(b.attributes) == h;
    }
    forall h | h in pool.creds ensures IsListed(c, before + [a], h, pool.creds[h]) {
      if h != c.digest(a.attributes) {
        assert IsListed(c, before, h, pool0.creds[h]);
      }
    }
  }

  // ----- _get_match_hash_list -----

  /** The candidates, None when some role is unknown. */
  function Candidates(c: Config, pool: Pool, roles: seq<string>): Option<set<Hash>> {
    if exists r :: r in roles && r !in pool.roles then None
    else Some(set h | h in pool.creds
                      && (forall r :: r in roles ==> pool.HasRole(h, r))
                      && (c.adminRole in roles || !pool.HasRole(h, c.adminRole)))
  }

  function SetOf(hs: seq<Hash>): set<Hash> {
    set h | h in hs
  }

  /** An unknown role raises; otherwise the accounts carrying every role asked for,
      without the admins unless that is one of the roles. */
  method GetMatchHashList(c: Config, pool: Pool, roles: seq<string>) returns (r: Option<set<Hash>>)
    requires pool.Valid()
    ensures r == Candidates(c, pool, roles)
  {
    var hashes: set<Hash>;
    if roles != [] {
      var lists: seq<set<Hash>> := [];
      for i := 0 to |roles|
        invariant |lists| == i
        invariant forall k :: 0 <= k < i ==> roles[k] in pool.roles && lists[k] == SetOf(pool.roles[roles[k]])
      {
        if roles[i] !in pool.roles {
          return None;
        }
        lists := lists + [SetOf(pool.roles[roles[i]])];
      }
      assert forall r :: r in roles ==> r in pool.roles;
      hashes := lists[0];
      for i := 1 to |lists|
        invariant hashes == set h | h in pool.creds && forall k :: 0 <= k < i ==> h in lists[k]
      {
        hashes := hashes * lists[i];
      }
      assert forall h :: h in hashes <==> h in pool.creds && forall r :: r in roles ==> pool.HasRole(h, r) by {
        forall h | h in hashes ensures forall r :: r in roles ==> pool.HasRole(h, r) {
          forall r | r in roles ensures pool.HasRole(h, r) {
            var k :| 0 <= k < |roles| && roles[k] == r;
            assert h in lists[k];
          }
        }
        forall h | h in pool.creds && forall r :: r in roles ==> pool.HasRole(h, r) ensures h in hashes {
          forall k | 0 <= k < |lists| ensures h in lists[k] {
            assert pool.HasRole(h, roles[k]);
          }
        }
      }
    } else {
      hashes := pool.creds.Keys;
    }
    if c.adminRole in pool.roles && c.adminRole !in roles {
      hashes := set h | h in hashes && h !in pool.roles[c.adminRole];
    }
    assert forall r :: r in roles ==> r in pool.roles;
    assert hashes == Candidates(c, pool, roles).value;
    r := Some(hashes);
  }

  // ----- the lock directory -----

  /** None while the directory is absent; each lock file holds its owner's name. */
  type Dir = Option<map<Hash, string>>

  function Locks(d: Dir): map<Hash, string> {
    if d.Some? then d.value else map[]
  }

  datatype Taken = Allocated(hash: Hash) | Insufficient(owners: seq<string>) | IndexError

  function FirstFree(hashes: seq<Hash>, locks: map<Hash, string>): Option<Hash> {
    if hashes == [] then None
    else if hashes[0] !in locks then Some(hashes[0])
    else FirstFree(hashes[1..], locks)
  }

  function Owners(hashes: seq<Hash>, locks: map<Hash, string>): seq<string>
    requires forall h :: h in hashes ==> h in locks
  {
    seq(|hashes|, i requires 0 <= i < |hashes| => locks[hashes[i]])
  }

  lemma {:induction false} FirstFreeIsFirst(hashes: seq<Hash>, locks: map<Hash, string>)
    ensures match FirstFree(hashes, locks)
            case Some(h) => h !in locks && exists i :: 0 <= i < |hashes| && hashes[i] == h
                                              && forall j :: 0 <= j < i ==> hashes[j] in locks
            case None => forall h :: h in hashes ==> h in locks
  {
    if hashes != [] && hashes[0] in locks {
      FirstFreeIsFirst(hashes[1..], locks);
      if FirstFree(hashes, locks).Some? {
        var i :| 0 <= i < |hashes[1..]| && hashes[1..][i] == FirstFree(hashes, locks).value
                 && forall j :: 0 <= j < i ==> hashes[1..][j] in locks;
        assert hashes[i + 1] == hashes[1..][i];
        assert forall j :: 0 < j < i + 1 ==> hashes[j] == hashes[1..][j - 1];
      }
    }
  }

  /** The step _get_free_hash makes under the external lock: it takes the first free
      candidate, whether or not there is a directory. */
  function Take(d: Dir, hashes: seq<Hash>, name: string): (Dir, Taken) {
    FirstFreeIsFirst(hashes, Locks(d));
    match FirstFree(hashes, Locks(d))
    case Some(h) => (Some(Locks(d)[h := name]), Allocated(h))
    case None => if d.None? then (Some(map[]), IndexError) else (d, Insufficient(Owners(hashes, d.value)))
  }

  function Remove(d: Dir, h: Hash): Dir {
    if h !in Locks(d) then d
    else if d.value - {h} == map[] then None
    else Some(d.value - {h})
  }

  class LockDir {
    var dir: Dir

    method CreateHashFile(h: Hash, name: string) returns (created: bool)
      requires dir.Some?
      modifies this
      ensures created <==> h !in Locks(old(dir))
      ensures dir == if created then Some(Locks(old(dir))[h := name]) else old(dir)
    {
      if h !in dir.value {
        dir := Some(dir.value[h := name]);
        return true;
      }
      return false;
    }

    /** The first of no candidates, in a directory just made, is an IndexError. */
    method GetFreeHash(hashes: seq<Hash>, name: string) returns (r: Taken)
      modifies this
      ensures (dir, r) == Take(old(dir), hashes, name)
    {
      if dir.None? {
        dir := Some(map[]);
        if hashes == [] {
          return IndexError;
        }
        var _ := CreateHashFile(hashes[0], name);
        return Allocated(hashes[0]);
      }
      var names: seq<string> := [];
      for i := 0 to |hashes|
        invariant dir == old(dir)
        invariant forall j :: 0 <= j < i ==> hashes[j] in dir.value
        invariant names == Owners(hashes[..i], dir.value)
        invariant FirstFree(hashes[i..], dir.value) == FirstFree(hashes, dir.value)
      {
        var created := CreateHashFile(hashes[i], name);
        assert hashes[i..][0] == hashes[i] && hashes[i..][1..] == hashes[i + 1..];
        if created {
          return Allocated(hashes[i]);
        }
        names := names + [dir.value[hashes[i]]];
      }
      assert hashes[..|hashes|] == hashes;
      r := Insufficient(names);
    }

    method RemoveHash(h: Hash)
      modifies this
      ensures dir == Remove(old(dir), h)
    {
      if dir.Some? && h in dir.value {
        dir := Some(dir.value - {h});
        if dir.value == map[] {
          dir := None;
        }
      }
    }
  }

  /** An allocation is right and complete: it takes a free candidate, the first in
      the order tried, and locks that one only; it fails only if every candidate is
      locked, then names their owners one by one, and no lock changes. */
  lemma TakeIsRight(d: Dir, hashes: seq<Hash>, name: string)
    ensures match Take(d, hashes, name).1
            case Allocated(h) =>
              && Locks(Take(d, hashes, name).0) == Locks(d)[h := name]
              && h !in Locks(d)
              && exists i :: 0 <= i < |hashes| && hashes[i] == h && forall j :: 0 <= j < i ==> hashes[j] in Locks(d)
            case Insufficient(owners) =>
              && (forall h :: h in hashes ==> h in Locks(d)) && Take(d, hashes, name).0 == d && d.Some?
              && |owners| == |hashes| && forall i :: 0 <= i < |hashes| ==> owners[i] == Locks(d)[hashes[i]]
            case IndexError => hashes == [] && d.None? && Locks(Take(d, hashes, name).0) == Locks(d)
    ensures Take(d, hashes, name).1.Allocated? <==> exists h :: h in hashes && h !in Locks(d)
  {
    FirstFreeIsFirst(hashes, Locks(d));
  }

  /** For an account file, the candidates are exactly the accounts that carry every
      role asked for and are no admins unless that was asked for. */
  lemma CandidatesAreRight(c: Config, accounts: seq<Listing>, pool: Pool, roles: seq<string>, h: Hash)
    requires Describes(c, accounts, pool)
    ensures Candidates(c, pool, roles).None? <==>
            exists r :: r in roles && forall g :: !Granted(c, accounts, g, r)
    ensures Candidates(c, pool, roles).Some? ==>
            (h in Candidates(c, pool, roles).value <==>
             && (exists a :: a in accounts && c.digest(a.attributes) == h)
             && (forall r :: r in roles ==> Granted(c, accounts, h, r))
             && (c.adminRole in roles || !Granted(c, accounts, h, c.adminRole)))
  {
    forall r ensures r in pool.roles <==> exists g :: Granted(c, accounts, g, r) {
      if r in pool.roles {
        assert pool.HasRole(pool.roles[r][0], r);
      } else {
        forall g ensures !Granted(c, accounts, g, r) {
          assert !pool.HasRole(g, r);
        }
      }
    }
  }

  /** An entry of the accounts file names the role, or a type with which the
      configuration names it. */
  ghost predicate Says(c: Config, a: Listing, role: string) {
    || role in a.roles
    || ("admin" in a.types && role == c.adminRole)
    || ("operator" in a.types && role == c.operatorRole)
    || ("reseller_admin" in a.types && role == c.resellerRole)
  }

  ghost predicate IsSaid(c: Config, accounts: seq<Listing>, h: Hash, role: string) {
    exists a :: a in accounts && c.digest(a.attributes) == h && Says(c, a, role)
  }

  lemma SaidIsGranted(c: Config, accounts: seq<Listing>, h: Hash, role: string)
    ensures IsSaid(c, accounts, h, role) <==> Granted(c, accounts, h, role)
  {
    forall a ensures Says(c, a, role) <==> Grants(c, a, role) {
      assert TypeRole(c, "admin") == Some(c.adminRole) && TypeRole(c, "operator") == Some(c.operatorRole);
      assert TypeRole(c, "reseller_admin") == Some(c.resellerRole);
    }
  }

  /** In the file's own texts: the candidates are the accounts said to have every role
      asked for and, unless the admin role is asked for, not said to have that one. */
  lemma CandidatesByText(c: Config, accounts: seq<Listing>, pool: Pool, roles: seq<string>, h: Hash)
    requires Describes(c, accounts, pool)
    ensures Candidates(c, pool, roles).None? <==> exists r :: r in roles && forall g :: !IsSaid(c, accounts, g, r)
    ensures Candidates(c, pool, roles).Some? ==>
            (h in Candidates(c, pool, roles).value <==>
             && (exists a :: a in accounts && c.digest(a.attributes) == h)
             && (forall r :: r in roles ==> IsSaid(c, accounts, h, r))
             && (c.adminRole in roles || !IsSaid(c, accounts, h, c.adminRole)))
  {
    forall g, r ensures IsSaid(c, accounts, g, r) <==> Granted(c, accounts, g, r) {
      SaidIsGranted(c, accounts, g, r);
    }
    CandidatesAreRight(c, accounts, pool, roles, h);
  }

  /** An account of type "admin" is never a candidate unless the admin role is asked
      for, and is one when that alone is. */
  lemma AdminsAreKeptApart(c: Config, accounts: seq<Listing>, pool: Pool, roles: seq<string>, a: Listing)
    requires Describes(c, accounts, pool) && a in accounts && "admin" in a.types
    ensures c.adminRole !in roles && Candidates(c, pool, roles).Some? ==>
              c.digest(a.attributes) !in Candidates(c, pool, roles).value
    ensures Candidates(c, pool, [c.adminRole]).Some? && c.digest(a.attributes) in Candidates(c, pool, [c.adminRole]).value
  {
    var h := c.digest(a.attributes);
    assert Says(c, a, c.adminRole) && IsSaid(c, accounts, h, c.adminRole);
    CandidatesByText(c, accounts, pool, roles, h);
    CandidatesByText(c, accounts, pool, [c.adminRole], h);
  }

  /** No empty directory is left behind. */
  predicate Tidy(d: Dir) {
    d != Some(map[])
  }

  /** A step keeps "the directory exists if and only if some lock does", except
      exactly when it makes the directory and then has no candidate to lock. */
  lemma TidyKeptExactly(d: Dir, hashes: seq<Hash>, name: string, h: Hash)
    requires Tidy(d)
    ensures Tidy(Take(d, hashes, name).0) <==> d.Some? || hashes != []
    ensures Tidy(Remove(d, h))
  {
    FirstFreeIsFirst(hashes, Locks(d));
    if Take(d, hashes, name).1.Allocated? {
      assert Take(d, hashes, name).1.hash in Locks(Take(d, hashes, name).0);
    }
    if d.None? && hashes != [] {
      assert hashes[0] in hashes && hashes[0] !in Locks(d);
    }
  }
}
