/** One credential provider: from accounts to credentials and back, its dictionary, and
its share in the lock directory.
*/
module Providers {
  import opened Options
  import opened Allocation
  import opened Credentials

  // ----- the credentials made of an account -----

  /** The names of the v3 attributes that mention a domain. */
  const DOMAIN_FIELDS: set<Attr> := {
    DomainId, DomainName, ProjectDomainId, ProjectDomainName, UserDomainId, UserDomainName}

  /** The attributes credentials are made from: with v3 and no domain given, the
      configured domain is added. */
  function Init(c: Config, a: Account): Account {
    if c.version.V3? && a.Keys !! DOMAIN_FIELDS then a[UserDomainName := c.domain] else a
  }

  /** Without this the making raises InvalidCredentials, with the lock taken. */
  predicate Usable(c: Config, a: Account) {
    if c.version.V3? then MakesValid(Init(c, a)) else a.Keys <= V2_ATTRIBUTES && Username in a && Password in a
  }

  predicate Admits(c: Config, pool: Pool, h: Hash) {
    h in pool.creds && Usable(c, pool.creds[h])
  }

  /** How credentials came to be what they are: the order in which their arguments
      were applied, and the tokens they were filled from since. */
  datatype Making = Making(order: seq<Attr>, tokens: seq<Token>)

  ghost predicate CanMake(c: Config, a: Account, m: Making) {
    IsOrder(m.order, Init(c, a).Keys) && ScopedTo(m.tokens, c.scope(a))
  }

  /** Credentials as `get_hash` sees them: the names they were made with, and what
      their attributes read as now. */
  datatype Creds = Creds(names: set<Attr>, attrs: State)

  function Made(c: Config, a: Account, m: Making): Creds
    requires CanMake(c, a, m)
  {
    var init := Init(c, a);
    Creds(init.Keys, if c.version.V3? then Refill(Apply(map[], Arguments(init), m.order), m.tokens) else RefillV2(init, m.tokens))
  }

  /** An account that mentions a domain in some attribute, or in its id alone. */
  predicate MentionsDomain(a: Account) {
    DomainId in a || DomainName in a || ProjectDomainId in a || ProjectDomainName in a || UserDomainId in a || UserDomainName in a
  }

  predicate MentionsOnlyDomainId(a: Account) {
    DomainId in a && DomainName !in a && ProjectDomainId !in a && ProjectDomainName !in a
    && UserDomainId !in a && UserDomainName !in a
  }

  /** Credentials have the names of the account, and with version 3 the configured user
      domain exactly if the account mentions none. */
  lemma MadeOfNames(c: Config, a: Account, m: Making)
    requires CanMake(c, a, m)
    ensures if c.version == V3 && !MentionsDomain(a) then Made(c, a, m).names == a.Keys + {UserDomainName}
            else Made(c, a, m).names == a.Keys
    ensures c.version == V3 && !MentionsDomain(a) && m.tokens == [] ==>
              Get(Made(c, a, m).attrs, UserDomainName) == Some(c.domain)
  {
    NoDomainFields(a);
    if c.version == V3 && !MentionsDomain(a) && m.tokens == [] {
      var init := Init(c, a);
      AloneAsGiven(init, m.order, UserDomainName);
    }
  }

  lemma NoDomainFields(a: Account)
    ensures a.Keys !! DOMAIN_FIELDS <==> !MentionsDomain(a)
  {
    assert DomainId in DOMAIN_FIELDS && DomainName in DOMAIN_FIELDS && ProjectDomainId in DOMAIN_FIELDS;
    assert ProjectDomainName in DOMAIN_FIELDS && UserDomainId in DOMAIN_FIELDS && UserDomainName in DOMAIN_FIELDS;
  }

  /** Which accounts make credentials. With version 3 a user or project name needs a
      domain, which the configuration supplies unless the account mentions one; so an
      account with a domain id and no other domain needs ids. */
  lemma UsableExactly(c: Config, a: Account)
    ensures c.version == V3 ==>
            (Usable(c, a) <==>
             && Password in a && (UserId in a || (Username in a && !MentionsOnlyDomainId(a)))
             && ((ProjectName in a || TenantName in a) && MentionsOnlyDomainId(a) ==> ProjectId in a || TenantId in a)
             && (DomainId in a || DomainName in a ==>
                   (DomainId in a && a[DomainId] != "") || (DomainName in a && a[DomainName] != "")))
    ensures c.version == V2 ==>
            (Usable(c, a) <==>
             && Username in a && Password in a
             && forall k :: k in a ==> k == Username || k == Password || k == TenantName || k == UserId || k == TenantId)
  {
    NoDomainFields(a);
    assert V2_ATTRIBUTES == {Username, Password, TenantName, UserId, TenantId};
  }

  // ----- get_hash: from credentials back to the hash -----

  datatype Search = Found(hash: Hash) | KeyError | AttributeError

  /** What one account of the pool is compared by. */
  function Compared(c: Config, names: set<Attr>, a: Account): Account {
    if UserDomainName in names && UserDomainName !in a then a[UserDomainName := c.domain] else a
  }

  predicate Comparable(c: Config, names: set<Attr>, a: Account) {
    names <= Compared(c, names, a).Keys
  }

  predicate Agrees(c: Config, creds: Creds, a: Account)
    requires Comparable(c, creds.names, a)
  {
    forall k :: k in creds.names ==> Get(creds.attrs, k) == Some(Compared(c, creds.names, a)[k])
  }

  /** In the order the dictionary iterates: the first account that agrees, unless one
      that can not be compared comes before it. */
  function Lookup(c: Config, pool: Pool, creds: Creds, order: seq<Hash>): Search
    requires forall h :: h in order ==> h in pool.creds
  {
    if order == [] then AttributeError
    else if !Comparable(c, creds.names, pool.creds[order[0]]) then KeyError
    else if Agrees(c, creds, pool.creds[order[0]]) then Found(order[0])
    else Lookup(c, pool, creds, order[1..])
  }

  ghost predicate Iterates(order: seq<Hash>, pool: Pool) {
    forall h :: h in order <==> h in pool.creds
  }

  method GetHash(c: Config, pool: Pool, creds: Creds, order: seq<Hash>) returns (r: Search)
    requires Iterates(order, pool)
    ensures r == Lookup(c, pool, creds, order)
  {
    for i := 0 to |order|
      invariant Lookup(c, pool, creds, order[i..]) == Lookup(c, pool, creds, order)
    {
      assert order[i..][0] == order[i] && order[i..][1..] == order[i + 1..];
      if !Comparable(c, creds.names, pool.creds[order[i]]) {
        return KeyError;
      }
      if Agrees(c, creds, pool.creds[order[i]]) {
        return Found(order[i]);
      }
    }
    r := AttributeError;
  }

  /** All accounts can be compared, and that one alone agrees. */
  ghost predicate FindsOnly(c: Config, pool: Pool, creds: Creds, h: Hash) {
    forall g :: g in pool.creds ==>
      Comparable(c, creds.names, pool.creds[g]) && (Agrees(c, creds, pool.creds[g]) <==> g == h)
  }

  lemma {:induction false} LookupFinds(c: Config, pool: Pool, creds: Creds, order: seq<Hash>, h: Hash)
    requires (forall g :: g in order ==> g in pool.creds) && FindsOnly(c, pool, creds, h) && h in order
    ensures Lookup(c, pool, creds, order) == Found(h)
    decreases |order|
  {
    if order[0] != h {
      LookupFinds(c, pool, creds, order[1..], h);
    }
  }

  /** What is found agrees. */
  lemma {:induction false} FoundAgrees(c: Config, pool: Pool, creds: Creds, order: seq<Hash>, h: Hash)
    requires forall g :: g in order ==> g in pool.creds
    requires Lookup(c, pool, creds, order) == Found(h)
    ensures h in pool.creds && Comparable(c, creds.names, pool.creds[h]) && Agrees(c, creds, pool.creds[h])
    decreases |order|
  {
    if !Agrees(c, creds, pool.creds[order[0]]) {
      FoundAgrees(c, pool, creds, order[1..], h);
    }
  }

  ghost predicate AlwaysFinds(c: Config, pool: Pool, creds: Creds, h: Hash) {
    forall order :: Iterates(order, pool) ==> Lookup(c, pool, creds, order) == Found(h)
  }

  /** A search finds h whichever way the dictionary iterates if and only if all
      accounts can be compared and h alone agrees. */
  lemma LookupExactly(c: Config, pool: Pool, creds: Creds, h: Hash)
    requires h in pool.creds
    ensures AlwaysFinds(c, pool, creds, h) <==> FindsOnly(c, pool, creds, h)
  {
    if FindsOnly(c, pool, creds, h) {
      forall order | Iterates(order, pool) ensures Lookup(c, pool, creds, order) == Found(h) {
        LookupFinds(c, pool, creds, order, h);
      }
    } else {
      var g :| g in pool.creds && !(Comparable(c, creds.names, pool.creds[g]) && (Agrees(c, creds, pool.creds[g]) <==> g == h));
      var rest := SomeHashes(pool.creds.Keys);
      assert forall f :: f in rest <==> f in SetOf(rest);
      assert Iterates([g] + rest, pool);
      if Lookup(c, pool, creds, [g] + rest) == Found(h) {
        FoundAgrees(c, pool, creds, [g] + rest, h);
      }
    }
  }

  lemma SetOfSnoc(hs: seq<Hash>, h: Hash)
    ensures SetOf(hs + [h]) == SetOf(hs) + {h}
  {
    assert forall g :: g in hs + [h] <==> g in hs || g == h;
  }

  lemma SetOfCons(h: Hash, hs: seq<Hash>)
    ensures SetOf([h] + hs) == {h} + SetOf(hs)
  {
    assert forall g :: g in [h] + hs <==> g == h || g in hs;
  }

  ghost function SomeHashes(hashes: set<Hash>): (order: seq<Hash>)
    ensures SetOf(order) == hashes
  {
    if hashes == {} then []
    else
      var h :| h in hashes;
      SetOfSnoc(SomeHashes(hashes - {h}), h);
      SomeHashes(hashes - {h}) + [h]
  }

  // ----- when the search comes back to where the credentials came from -----

  /** The account's own attributes survive the making. */
  predicate KeepsOwn(c: Config, a: Account) {
    c.version.V3? ==> Consistent(Arguments(Init(c, a))) && KeepsNames(Init(c, a), c.scope(a))
  }

  lemma ComparedToItself(c: Config, a: Account)
    ensures Compared(c, Init(c, a).Keys, a) == Init(c, a)
  {
  }

  lemma KeepsOwnAlways(c: Config, a: Account, m: Making)
    requires CanMake(c, a, m) && KeepsOwn(c, a)
    ensures ReadsBack(Made(c, a, m).attrs, Init(c, a))
  {
    if c.version.V3? {
      GivenIsKept(Init(c, a), c.scope(a), m.order, m.tokens);
    } else {
      RefillV2Keeps(a, m.tokens);
    }
  }

  lemma OtherwiseItStrays(c: Config, a: Account) returns (m: Making)
    requires !KeepsOwn(c, a)
    ensures CanMake(c, a, m) && m.tokens != [] && !ReadsBack(Made(c, a, m).attrs, Init(c, a))
  {
    GivenIsKeptExactly(Init(c, a), c.scope(a));
    var order, ts :| IsOrder(order, Init(c, a).Keys) && ts != [] && ScopedTo(ts, c.scope(a))
                     && !ReadsBack(Refill(Apply(map[], Arguments(Init(c, a)), order), ts), Init(c, a));
    m := Making(order, ts);
  }

  /** Credentials made of x and unchanged would agree with y. */
  predicate Matches(c: Config, x: Account, y: Account) {
    && Comparable(c, Init(c, x).Keys, y)
    && forall k :: k in Init(c, x) ==> Init(c, x)[k] == Compared(c, Init(c, x).Keys, y)[k]
  }

  /** No other account stands in the way of the search for this one. */
  ghost predicate ToldApart(c: Config, pool: Pool, h: Hash)
    requires h in pool.creds
  {
    forall g :: g in pool.creds && g != h ==>
      Comparable(c, Init(c, pool.creds[h]).Keys, pool.creds[g]) && !Matches(c, pool.creds[h], pool.creds[g])
  }

  /** The search for the credentials made of h, however made and filled, comes back to
      h, whichever way the dictionary iterates. */
  ghost predicate Recovered(c: Config, pool: Pool, h: Hash)
    requires h in pool.creds
  {
    forall m :: CanMake(c, pool.creds[h], m) && m.tokens != [] ==> AlwaysFinds(c, pool, Made(c, pool.creds[h], m), h)
  }

  lemma UnchangedFindsOnly(c: Config, pool: Pool, h: Hash, m: Making)
    requires h in pool.creds && CanMake(c, pool.creds[h], m)
    requires ReadsBack(Made(c, pool.creds[h], m).attrs, Init(c, pool.creds[h]))
    ensures FindsOnly(c, pool, Made(c, pool.creds[h], m), h) <==> ToldApart(c, pool, h)
  {
    var x := pool.creds[h];
    var creds := Made(c, x, m);
    ComparedToItself(c, x);
    forall g | g in pool.creds && Comparable(c, creds.names, pool.creds[g])
      ensures Agrees(c, creds, pool.creds[g]) <==> Matches(c, x, pool.creds[g])
    {
      var y := Compared(c, creds.names, pool.creds[g]);
      assert forall k :: k in creds.names ==> (Get(creds.attrs, k) == Some(y[k]) <==> Init(c, x)[k] == y[k]);
    }
    assert Matches(c, x, pool.creds[h]);
  }

  lemma AgreesWithItself(c: Config, a: Account, m: Making)
    requires CanMake(c, a, m)
    ensures Comparable(c, Made(c, a, m).names, a)
    ensures Agrees(c, Made(c, a, m), a) <==> ReadsBack(Made(c, a, m).attrs, Init(c, a))
  {
    ComparedToItself(c, a);
  }

  /** The allocated hash is recovered for every order of the arguments, every run of
      tokens of the account's scope and every order of the pool if and only if the
      account's arguments do not contend, its scope takes over no domain name it was
      given, and no other account of the pool matches it or lacks one of its names. */
  lemma HashIsRecoveredExactly(c: Config, pool: Pool, h: Hash)
    requires h in pool.creds
    ensures Recovered(c, pool, h) <==> KeepsOwn(c, pool.creds[h]) && ToldApart(c, pool, h)
  {
    var x := pool.creds[h];
    if KeepsOwn(c, x) {
      forall m | CanMake(c, x, m)
        ensures AlwaysFinds(c, pool, Made(c, x, m), h) <==> ToldApart(c, pool, h)
      {
        KeepsOwnAlways(c, x, m);
        UnchangedFindsOnly(c, pool, h, m);
        LookupExactly(c, pool, Made(c, x, m), h);
      }
      var m := SomeMaking(c, x);
      assert CanMake(c, x, m) && m.tokens != [];
    } else {
      var m := OtherwiseItStrays(c, x);
      AgreesWithItself(c, x, m);
      assert !FindsOnly(c, pool, Made(c, x, m), h);
      LookupExactly(c, pool, Made(c, x, m), h);
    }
  }

  lemma GoesAstray(c: Config, pool: Pool, h: Hash) returns (m: Making, order: seq<Hash>)
    requires h in pool.creds && !Recovered(c, pool, h)
    ensures CanMake(c, pool.creds[h], m) && Iterates(order, pool)
    ensures Lookup(c, pool, Made(c, pool.creds[h], m), order) != Found(h)
  {
    m :| CanMake(c, pool.creds[h], m) && m.tokens != [] && !AlwaysFinds(c, pool, Made(c, pool.creds[h], m), h);
    order :| Iterates(order, pool) && Lookup(c, pool, Made(c, pool.creds[h], m), order) != Found(h);
  }

  ghost function SomeMaking(c: Config, a: Account): (m: Making)
    ensures CanMake(c, a, m) && m.tokens != []
  {
    Making(Credentials.SomeOrder(Init(c, a).Keys), [SomeToken(c.scope(a))])
  }

  /** Of every account of the pool. */
  ghost predicate Recoverable(c: Config, pool: Pool) {
    forall h :: h in pool.creds ==> KeepsOwn(c, pool.creds[h]) && ToldApart(c, pool, h)
  }

  /** Filled or not, just made or reset since. */
  lemma HashIsRecovered(c: Config, pool: Pool, h: Hash, m: Making, order: seq<Hash>)
    requires Recoverable(c, pool) && h in pool.creds && CanMake(c, pool.creds[h], m) && Iterates(order, pool)
    ensures Lookup(c, pool, Made(c, pool.creds[h], m), order) == Found(h)
  {
    KeepsOwnAlways(c, pool.creds[h], m);
    UnchangedFindsOnly(c, pool, h, m);
    LookupExactly(c, pool, Made(c, pool.creds[h], m), h);
  }

  /** Distinct accounts with the same attribute names are told apart, so a pool of such
      accounts is recoverable if and only if each account keeps its own attributes. */
  lemma AlikeAccountsAreToldApart(c: Config, accounts: seq<Listing>, pool: Pool)
    requires Describes(c, accounts, pool)
    requires forall a, b :: a in accounts && b in accounts ==> a.attributes.Keys == b.attributes.Keys
    ensures forall h :: h in pool.creds ==> ToldApart(c, pool, h)
    ensures Recoverable(c, pool) <==> forall h :: h in pool.creds ==> KeepsOwn(c, pool.creds[h])
  {
    forall h, g | h in pool.creds && g in pool.creds && g != h
      ensures Comparable(c, Init(c, pool.creds[h]).Keys, pool.creds[g]) && !Matches(c, pool.creds[h], pool.creds[g])
    {
      var x, y := pool.creds[h], pool.creds[g];
      assert IsListed(c, accounts, h, x) && IsListed(c, accounts, g, y);
      var a :| a in accounts && a.attributes == x;
      var b :| b in accounts && b.attributes == y;
      AlikePair(c, x, y);
    }
  }

  lemma AlikePair(c: Config, x: Account, y: Account)
    requires x.Keys == y.Keys
    ensures Comparable(c, Init(c, x).Keys, y) && (Matches(c, x, y) ==> x == y)
  {
    var init := Init(c, x);
    assert Comparable(c, init.Keys, y);
    if Matches(c, x, y) {
      forall k | k in x ensures x[k] == y[k] {
        assert init[k] == Compared(c, init.Keys, y)[k];
      }
    }
  }

  // ----- two accounts that go astray -----

  /** The lock of an account scoped to a domain that takes over its user's domain name
      can not be released: the search fails for every order and every run of tokens, in
      every pool of accounts with those names and no user domain of the new name. */
  lemma TakenNameIsNotFound(c: Config, pool: Pool, a: Account, m: Making, order: seq<Hash>)
    requires c.version.V3? && CanMake(c, a, m) && m.tokens != [] && Iterates(order, pool)
    requires Consistent(Arguments(a)) && UserDomainName in a && DomainName !in a
    requires c.scope(a).Some? && a[UserDomainName] != c.scope(a).value.name
    requires forall g :: g in pool.creds ==>
      a.Keys <= pool.creds[g].Keys && pool.creds[g][UserDomainName] != c.scope(a).value.name
    ensures Lookup(c, pool, Made(c, a, m), order) == AttributeError
  {
    assert UserDomainName in a.Keys && UserDomainName in DOMAIN_FIELDS;
    assert Init(c, a) == a;
    TakenNameReads(a, c.scope(a).value, m);
    assert forall g :: g in pool.creds ==> UserDomainName in pool.creds[g].Keys;
    NoneAgrees(c, pool, Made(c, a, m), order);
  }

  lemma TakenNameReads(a: Account, d: Domain, m: Making)
    requires Consistent(Arguments(a)) && UserDomainName in a && DomainName !in a
    requires IsOrder(m.order, a.Keys) && m.tokens != [] && ScopedTo(m.tokens, Some(d))
    ensures Get(Refill(Apply(map[], Arguments(a), m.order), m.tokens), UserDomainName) == Some(d.name)
  {
    AppliedIsAliased(a, m.order);
    ConsistentReads(a, m.order, DomainName);
    ConsistentReads(a, m.order, UserDomainName);
    FirstOfScope(m.tokens, Some(d));
    RefillKeeps(Apply(map[], Arguments(a), m.order), m.tokens, UserDomainName);
  }

  /** Such an account. */
  lemma ScopedAccountIsUsable(c: Config, a: Account)
    requires c.version.V3? && a == map[Username := "u", Password := "p", UserDomainName := "A", DomainId := "b"]
    requires c.scope(a) == Some(Domain("b", "B"))
    ensures Usable(c, a) && !KeepsOwn(c, a) && Consistent(Arguments(a)) && DomainName !in a
  {
    assert UserDomainName in a.Keys && UserDomainName in DOMAIN_FIELDS;
    assert Init(c, a) == a;
  }

  lemma {:induction false} NoneAgrees(c: Config, pool: Pool, creds: Creds, order: seq<Hash>)
    requires forall h :: h in order ==> h in pool.creds
    requires forall h :: h in pool.creds ==>
      Comparable(c, creds.names, pool.creds[h]) && !Agrees(c, creds, pool.creds[h])
    ensures Lookup(c, pool, creds, order) == AttributeError
    decreases |order|
  {
    if order != [] {
      NoneAgrees(c, pool, creds, order[1..]);
    }
  }

  /** An account that gives a tenant and a project name, and the account that has the
      project's name for both. */
  predicate GivesBoth(a: Account) {
    a.Keys == {Username, Password, TenantName, UserDomainName, ProjectName}
  }

  function Namesake(a: Account): Account
    requires GivesBoth(a)
  {
    a[TenantName := a[ProjectName]]
  }

  const PROJECT_LAST: seq<Attr> := [Username, Password, TenantName, UserDomainName, ProjectName]

  /** Where the names differ and the project's is applied last, the credentials are
      taken for the namesake's, whatever tokens they are filled from. */
  lemma NamesakeIsFound(c: Config, pool: Pool, x: Hash, y: Hash, ts: seq<Token>, order: seq<Hash>)
    requires c.version.V3? && x in pool.creds && y in pool.creds && pool.creds.Keys == {x, y}
    requires var a := pool.creds[x];
             GivesBoth(a) && pool.creds[y] == Namesake(a) && a[TenantName] != a[ProjectName]
    requires c.scope(pool.creds[x]) == None && ScopedTo(ts, None) && Iterates(order, pool)
    ensures Usable(c, pool.creds[x]) && Usable(c, pool.creds[y])
    ensures CanMake(c, pool.creds[x], Making(PROJECT_LAST, ts))
    ensures Lookup(c, pool, Made(c, pool.creds[x], Making(PROJECT_LAST, ts)), order) == Found(y)
  {
    var a := pool.creds[x];
    GivesBothIsUsable(c, a);
    GivesBothIsUsable(c, Namesake(a));
    ProjectTakesOver(a, ts);
    var creds := Made(c, a, Making(PROJECT_LAST, ts));
    NamesakeAgrees(c, a, creds);
    OneOfTwo(c, pool, creds, x, y, order);
  }

  lemma GivesBothIsUsable(c: Config, a: Account)
    requires GivesBoth(a) && c.version.V3?
    ensures Init(c, a) == a && Usable(c, a)
  {
    assert UserDomainName in a.Keys && UserDomainName in DOMAIN_FIELDS;
  }

  lemma OneOfTwo(c: Config, pool: Pool, creds: Creds, x: Hash, y: Hash, order: seq<Hash>)
    requires pool.creds.Keys == {x, y} && Iterates(order, pool)
    requires Comparable(c, creds.names, pool.creds[x]) && !Agrees(c, creds, pool.creds[x])
    requires Comparable(c, creds.names, pool.creds[y]) && Agrees(c, creds, pool.creds[y])
    ensures Lookup(c, pool, creds, order) == Found(y)
  {
    assert forall g :: g in pool.creds ==> g in {x, y};
    LookupFinds(c, pool, creds, order, y);
  }

  lemma NamesakeAgrees(c: Config, a: Account, creds: Creds)
    requires GivesBoth(a) && a[TenantName] != a[ProjectName]
    requires creds.names == a.Keys && ReadsBack(creds.attrs, Namesake(a))
    ensures Comparable(c, creds.names, a) && !Agrees(c, creds, a)
    ensures Comparable(c, creds.names, Namesake(a)) && Agrees(c, creds, Namesake(a))
  {
    assert Namesake(a).Keys == a.Keys;
    assert TenantName in Namesake(a) && Get(creds.attrs, TenantName) == Some(a[ProjectName]);
    assert TenantName in creds.names;
  }

  lemma ProjectTakesOver(a: Account, ts: seq<Token>)
    requires GivesBoth(a) && ScopedTo(ts, None)
    ensures IsOrder(PROJECT_LAST, a.Keys)
    ensures ReadsBack(Refill(Apply(map[], Arguments(a), PROJECT_LAST), ts), Namesake(a))
  {
    var s := Apply(map[], Arguments(a), PROJECT_LAST);
    ProjectLastIsOrder(a);
    AppliedIsAliased(a, PROJECT_LAST);
    FirstOfScope(ts, None);
    forall k | k in Namesake(a) ensures Get(Refill(s, ts), k) == Some(Namesake(a)[k]) {
      NamesakeReads(a, k);
      RefillKeeps(s, ts, k);
    }
  }

  lemma ProjectLastIsOrder(a: Account)
    requires GivesBoth(a)
    ensures IsOrder(PROJECT_LAST, a.Keys)
  {
  }

  lemma NamesakeReads(a: Account, k: Attr)
    requires GivesBoth(a) && k in a && forall k :: k in PROJECT_LAST ==> k in a
    ensures Get(Apply(map[], Arguments(a), PROJECT_LAST), k) == Some(Namesake(a)[k])
  {
    assert k in {Username, Password, TenantName, UserDomainName, ProjectName};
    if k == TenantName || k == ProjectName {
      AssignReads(Apply(map[], Arguments(a), PROJECT_LAST[..4]), ProjectName, Some(a[ProjectName]), k);
    } else {
      AloneAsGiven(a, PROJECT_LAST, k);
    }
  }

  // ----- one provider's dictionary -----

  datatype Key = PrimaryKey | AltKey | RolesKey(roles: seq<string>) | MovedKey(roles: seq<string>, index: nat)

  type Held = map<Key, Hash>

  datatype Request = Primary | Alt | ByRoles(roles: seq<string>, forceNew: bool) {

    function Key(): Key {
      match this
      case Primary => PrimaryKey
      case Alt => AltKey
      case ByRoles(roles, _) => RolesKey(roles)
    }

    function Roles(): seq<string> {
      if ByRoles? then roles else []
    }

    predicate Forced() {
      ByRoles? && forceNew
    }
  }

  /** The request is answered from the dictionary. */
  predicate Hit(held: Held, req: Request) {
    req.Key() in held && !req.Forced()
  }

  /** A forced request first moves the entry it will replace. */
  predicate Moves(held: Held, req: Request) {
    req.Key() in held && req.Forced()
  }

  function Moved(held: Held, req: Request): Held {
    if Moves(held, req) then held[MovedKey(req.Roles(), |held|) := held[req.Key()]] else held
  }

  datatype Reply = Given(hash: Hash) | NoSuchRole | NoneFree | Rejected(hash: Hash)

  /** What comes of the hash taken: credentials, unless they can not be made. */
  function Outcome(c: Config, pool: Pool, taken: Taken): Reply {
    match taken
    case Allocated(h) => if Admits(c, pool, h) then Given(h) else Rejected(h)
    case _ => NoneFree
  }

  /** The answer to a request, trying the candidates in the given order. When no
      credentials are had, the exception leaves the moved entry where it is, and the
      lock if one was taken. */
  function Answer(c: Config, pool: Pool, dir: Dir, name: string, held: Held, req: Request, candidates: seq<Hash>)
    : (Dir, Held, Reply)
  {
    if Hit(held, req) then (dir, held, Given(held[req.Key()]))
    else if Candidates(c, pool, req.Roles()).None? then (dir, Moved(held, req), NoSuchRole)
    else
      var (dir', taken) := Take(dir, candidates, name);
      var r := Outcome(c, pool, taken);
      (dir', if r.Given? then Moved(held, req)[req.Key() := r.hash] else Moved(held, req), r)
  }

  /** An answer is from the dictionary, with nothing locked; or a free candidate that
      makes credentials, now locked; or says why there is none. */
  lemma AnswerIsRight(c: Config, pool: Pool, dir: Dir, name: string, held: Held, req: Request, candidates: seq<Hash>)
    requires Lists(candidates, Candidates(c, pool, req.Roles()))
    ensures var (dir', held', r) := Answer(c, pool, dir, name, held, req, candidates);
            var usable := Candidates(c, pool, req.Roles());
            if Hit(held, req) then r == Given(held[req.Key()]) && dir' == dir && held' == held
            else if usable.None? then r == NoSuchRole && dir' == dir
            else match r
                 case Given(h) =>
                   h in usable.value && h !in Locks(dir) && Admits(c, pool, h) && Locks(dir') == Locks(dir)[h := name]
                 case Rejected(h) =>
                   h in usable.value && h !in Locks(dir) && !Admits(c, pool, h) && Locks(dir') == Locks(dir)[h := name]
                 case NoneFree => (forall h :: h in usable.value ==> h in Locks(dir)) && Locks(dir') == Locks(dir)
                 case NoSuchRole => false
  {
    TakeIsRight(dir, candidates, name);
    assert forall h :: h in candidates <==> h in SetOf(candidates);
  }

  /** All entries are of accounts of the pool. */
  predicate Stocked(pool: Pool, held: Held) {
    forall k :: k in held ==> held[k] in pool.creds
  }

  lemma AnswerKeepsStocked(c: Config, pool: Pool, dir: Dir, name: string, held: Held, req: Request, candidates: seq<Hash>)
    requires Stocked(pool, held)
    ensures Stocked(pool, Answer(c, pool, dir, name, held, req, candidates).1)
  {
    var held' := Answer(c, pool, dir, name, held, req, candidates).1;
    forall k | k in held' ensures held'[k] in pool.creds {
      assert k in Moved(held, req) ==> Moved(held, req)[k] in pool.creds;
    }
  }

  // ----- clearing -----

  /** One lock given back: the lock of whatever account is found. */
  function GiveBack(c: Config, pool: Pool, dir: Dir, creds: Creds, order: seq<Hash>): (Dir, Search)
    requires forall h :: h in order ==> h in pool.creds
  {
    var r := Lookup(c, pool, creds, order);
    (if r.Found? then Remove(dir, r.hash) else dir, r)
  }

  /** One after the other; the first search that fails ends it all. */
  function Cleared(c: Config, pool: Pool, dir: Dir, all: seq<Creds>, order: seq<Hash>): (Dir, Option<Search>)
    requires forall h :: h in order ==> h in pool.creds
    decreases |all|
  {
    if all == [] then (dir, None)
    else
      var (dir', r) := GiveBack(c, pool, dir, all[0], order);
      if r.Found? then Cleared(c, pool, dir', all[1..], order) else (dir', Some(r))
  }

  function FoundAccounts(c: Config, pool: Pool, all: seq<Creds>, order: seq<Hash>): set<Hash>
    requires forall h :: h in order ==> h in pool.creds
  {
    set i | 0 <= i < |all| && Lookup(c, pool, all[i], order).Found? :: Lookup(c, pool, all[i], order).hash
  }

  /** In any pool: the locks of the accounts found for the entries go, up to the first
      entry for which the search fails; that failure is the one reported. */
  lemma {:induction false} ClearedExactly(c: Config, pool: Pool, dir: Dir, all: seq<Creds>, order: seq<Hash>)
    returns (k: nat)
    requires forall h :: h in order ==> h in pool.creds
    ensures k <= |all| && forall i :: 0 <= i < k ==> Lookup(c, pool, all[i], order).Found?
    ensures var (dir', failure) := Cleared(c, pool, dir, all, order);
            && Locks(dir') == Locks(dir) - FoundAccounts(c, pool, all[..k], order)
            && if k == |all| then failure == None
               else failure == Some(Lookup(c, pool, all[k], order)) && !Lookup(c, pool, all[k], order).Found?
    decreases |all|
  {
    k := 0;
    if all != [] && Lookup(c, pool, all[0], order).Found? {
      var m := ClearedExactly(c, pool, Remove(dir, Lookup(c, pool, all[0], order).hash), all[1..], order);
      k := m + 1;
      ClearedOfFound(c, pool, dir, all, order);
      FoundGoes(c, pool, dir, all, order, m);
      assert forall i :: 0 < i < k ==> all[i] == all[1..][i - 1];
    } else {
      NoneFound(c, pool, all, order);
    }
  }

  lemma NoneFound(c: Config, pool: Pool, all: seq<Creds>, order: seq<Hash>)
    requires forall h :: h in order ==> h in pool.creds
    ensures FoundAccounts(c, pool, all[..0], order) == {}
  {
  }

  lemma ClearedOfFound(c: Config, pool: Pool, dir: Dir, all: seq<Creds>, order: seq<Hash>)
    requires (forall h :: h in order ==> h in pool.creds) && all != [] && Lookup(c, pool, all[0], order).Found?
    ensures Cleared(c, pool, dir, all, order)
            == Cleared(c, pool, Remove(dir, Lookup(c, pool, all[0], order).hash), all[1..], order)
  {
  }

  lemma FoundGoes(c: Config, pool: Pool, dir: Dir, all: seq<Creds>, order: seq<Hash>, m: nat)
    requires (forall h :: h in order ==> h in pool.creds) && m < |all| && Lookup(c, pool, all[0], order).Found?
    ensures Locks(Remove(dir, Lookup(c, pool, all[0], order).hash)) - FoundAccounts(c, pool, all[1..][..m], order)
            == Locks(dir) - FoundAccounts(c, pool, all[..m + 1], order)
  {
    FoundOneMore(c, pool, all, order, m);
    RemoveUnlocks(dir, Lookup(c, pool, all[0], order).hash);
  }

  lemma FoundOneMore(c: Config, pool: Pool, all: seq<Creds>, order: seq<Hash>, m: nat)
    requires (forall h :: h in order ==> h in pool.creds) && m < |all| && Lookup(c, pool, all[0], order).Found?
    ensures FoundAccounts(c, pool, all[..m + 1], order)
            == {Lookup(c, pool, all[0], order).hash} + FoundAccounts(c, pool, all[1..][..m], order)
  {
    var xs, ys := all[..m + 1], all[1..][..m];
    assert xs[0] == all[0] && forall i :: 0 <= i < m ==> xs[i + 1] == ys[i];
    forall h | h in FoundAccounts(c, pool, ys, order) ensures h in FoundAccounts(c, pool, xs, order) {
      var i :| 0 <= i < |ys| && Lookup(c, pool, ys[i], order).Found? && Lookup(c, pool, ys[i], order).hash == h;
      assert xs[i + 1] == ys[i];
    }
    forall h | h in FoundAccounts(c, pool, xs, order) && h != Lookup(c, pool, all[0], order).hash
      ensures h in FoundAccounts(c, pool, ys, order)
    {
      var i :| 0 <= i < |xs| && Lookup(c, pool, xs[i], order).Found? && Lookup(c, pool, xs[i], order).hash == h;
      assert ys[i - 1] == xs[i];
    }
  }

  /** In a recoverable pool clearing succeeds and releases exactly the locks of the
      accounts the credentials were made of. */
  lemma {:induction false} ClearedReleases(c: Config, pool: Pool, dir: Dir, hs: seq<Hash>, all: seq<Creds>, order: seq<Hash>)
    requires Recoverable(c, pool) && Iterates(order, pool) && |all| == |hs|
    requires forall i :: 0 <= i < |hs| ==> MadeOf(c, pool, all[i], hs[i])
    ensures var (dir', failure) := Cleared(c, pool, dir, all, order);
            failure == None && Locks(dir') == Locks(dir) - SetOf(hs)
    decreases |hs|
  {
    if hs != [] {
      MadeIsRecovered(c, pool, all[0], hs[0], order);
      ClearedReleases(c, pool, Remove(dir, hs[0]), hs[1..], all[1..], order);
      ReleasesOneMore(dir, hs);
    }
  }

  lemma ReleasesOneMore(dir: Dir, hs: seq<Hash>)
    requires hs != []
    ensures Locks(Remove(dir, hs[0])) - SetOf(hs[1..]) == Locks(dir) - SetOf(hs)
  {
    RemoveUnlocks(dir, hs[0]);
    SetOfCons(hs[0], hs[1..]);
    assert [hs[0]] + hs[1..] == hs;
  }

  ghost predicate MadeOf(c: Config, pool: Pool, creds: Creds, h: Hash) {
    h in pool.creds && exists m :: CanMake(c, pool.creds[h], m) && creds == Made(c, pool.creds[h], m)
  }

  lemma MadeIsRecovered(c: Config, pool: Pool, creds: Creds, h: Hash, order: seq<Hash>)
    requires Recoverable(c, pool) && Iterates(order, pool) && MadeOf(c, pool, creds, h)
    ensures Lookup(c, pool, creds, order) == Found(h)
  {
    var m :| CanMake(c, pool.creds[h], m) && creds == Made(c, pool.creds[h], m);
    HashIsRecovered(c, pool, h, m, order);
  }

  lemma RemoveUnlocks(d: Dir, h: Hash)
    ensures Locks(Remove(d, h)) == Locks(d) - {h}
  {
  }

  ghost predicate Lists(candidates: seq<Hash>, hashes: Option<set<Hash>>) {
    hashes.Some? ==> SetOf(candidates) == hashes.value
  }

  class Accounts {
    const config: Config
    const pool: Pool
    const lockDir: LockDir
    const name: string
    var isolatedCreds: Held

    constructor (config: Config, pool: Pool, lockDir: LockDir, name: string)
      ensures this.config == config && this.pool == pool && this.lockDir == lockDir && this.name == name
      ensures isolatedCreds == map[]
    {
      this.config, this.pool, this.lockDir, this.name := config, pool, lockDir, name;
      isolatedCreds := map[];
    }

    /** list(hashes), in whatever order */
    static method AnyOrder(hashes: set<Hash>) returns (order: seq<Hash>)
      ensures SetOf(order) == hashes
    {
      order := [];
      var left := hashes;
      while left != {}
        invariant left <= hashes && SetOf(order) == hashes - left
        decreases left
      {
        var h :| h in left;
        SetOfSnoc(order, h);
        order, left := order + [h], left - {h};
      }
    }

    method GetCreds(roles: seq<string>) returns (r: Reply, ghost candidates: seq<Hash>)
      requires pool.Valid()
      modifies lockDir
      ensures Lists(candidates, Candidates(config, pool, roles))
      ensures if Candidates(config, pool, roles).None? then lockDir.dir == old(lockDir.dir) && r == NoSuchRole
              else var (dir', taken) := Take(old(lockDir.dir), candidates, name);
                   lockDir.dir == dir' && r == Outcome(config, pool, taken)
    {
      candidates := [];
      var usable := GetMatchHashList(config, pool, roles);
      if usable.None? {
        return NoSuchRole, [];
      }
      var order := AnyOrder(usable.value);
      candidates := order;
      ghost var dir0 := lockDir.dir;
      var taken := lockDir.GetFreeHash(order, name);
      if taken.Allocated? {
        TakeIsRight(dir0, order, name);
        assert taken.hash in SetOf(order);
        if !Usable(config, pool.creds[taken.hash]) {
          return Rejected(taken.hash), candidates;
        }
        return Given(taken.hash), candidates;
      }
      r := NoneFree;
    }

    /** get_primary_creds and get_alt_creds */
    method GetPlainCreds(req: Request) returns (r: Reply, ghost candidates: seq<Hash>)
      requires pool.Valid() && !req.ByRoles?
      modifies this, lockDir
      ensures Lists(candidates, Candidates(config, pool, []))
      ensures (lockDir.dir, isolatedCreds, r)
              == Answer(config, pool, old(lockDir.dir), name, old(isolatedCreds), req, candidates)
      ensures Stocked(pool, old(isolatedCreds)) ==> Stocked(pool, isolatedCreds)
    {
      if req.Key() in isolatedCreds {
        ghost var any: seq<Hash> := ListOf(Candidates(config, pool, []));
        return Given(isolatedCreds[req.Key()]), any;
      }
      r, candidates := GetCreds([]);
      if r.Given? {
        isolatedCreds := isolatedCreds[req.Key() := r.hash];
      }
    }

    method GetCredsByRoles(roles: seq<string>, forceNew: bool) returns (r: Reply, ghost candidates: seq<Hash>)
      requires pool.Valid()
      modifies this, lockDir
      ensures Lists(candidates, Candidates(config, pool, roles))
      ensures (lockDir.dir, isolatedCreds, r)
              == Answer(config, pool, old(lockDir.dir), name, old(isolatedCreds), ByRoles(roles, forceNew), candidates)
      ensures Stocked(pool, old(isolatedCreds)) ==> Stocked(pool, isolatedCreds)
    {
      var key := RolesKey(roles);
      if key in isolatedCreds && !forceNew {
        ghost var any: seq<Hash> := ListOf(Candidates(config, pool, roles));
        return Given(isolatedCreds[key]), any;
      } else if key in isolatedCreds && forceNew {
        var newIndex := MovedKey(roles, |isolatedCreds|);
        isolatedCreds := isolatedCreds[newIndex := isolatedCreds[key]];
      }
      r, candidates := GetCreds(roles);
      if r.Given? {
        isolatedCreds := isolatedCreds[key := r.hash];
      }
    }

    static ghost function ListOf(hashes: Option<set<Hash>>): (order: seq<Hash>)
      ensures Lists(order, hashes)
    {
      if hashes.None? then [] else SomeHashes(hashes.value)
    }

    /** From credentials back to a lock, or the failure of the search. */
    method RemoveCredentials(creds: Creds, order: seq<Hash>) returns (r: Search)
      requires Iterates(order, pool)
      modifies lockDir
      ensures (lockDir.dir, r) == GiveBack(config, pool, old(lockDir.dir), creds, order)
    {
      r := GetHash(config, pool, creds, order);
      if r.Found? {
        lockDir.RemoveHash(r.hash);
      }
    }

    /** Credentials are objects that others fill and reset; `now` tells what those made
        of each account have become. */
    method ClearIsolatedCreds(keys: seq<Key>, now: map<Hash, Creds>, order: seq<Hash>) returns (failure: Option<Search>)
      requires Iterates(order, pool) && (forall k :: k in keys <==> k in isolatedCreds)
      requires forall k :: k in isolatedCreds ==> isolatedCreds[k] in now
      modifies lockDir
      ensures (lockDir.dir, failure)
              == Cleared(config, pool, old(lockDir.dir), EntriesOf(isolatedCreds, keys, now), order)
      ensures Recoverable(config, pool) && AllMade(config, pool, isolatedCreds, now)
              ==> failure == None && Locks(lockDir.dir) == Locks(old(lockDir.dir)) - isolatedCreds.Values
    {
      ghost var all, dir0 := EntriesOf(isolatedCreds, keys, now), lockDir.dir;
      if Recoverable(config, pool) && AllMade(config, pool, isolatedCreds, now) {
        ClearingReleases(config, pool, dir0, isolatedCreds, keys, now, order);
      }
      for i := 0 to |keys|
        invariant Cleared(config, pool, lockDir.dir, all[i..], order) == Cleared(config, pool, dir0, all, order)
      {
        assert all[i..][0] == all[i] && all[i..][1..] == all[i + 1..];
        var r := RemoveCredentials(now[isolatedCreds[keys[i]]], order);
        if !r.Found? {
          return Some(r);
        }
      }
      failure := None;
    }
  }

  /** Each entry's credentials were made of its account. */
  ghost predicate AllMade(c: Config, pool: Pool, held: Held, now: map<Hash, Creds>)
    requires forall k :: k in held ==> held[k] in now
  {
    forall k :: k in held ==> MadeOf(c, pool, now[held[k]], held[k])
  }

  function EntriesOf(held: Held, keys: seq<Key>, now: map<Hash, Creds>): seq<Creds>
    requires forall k :: k in keys ==> k in held && held[k] in now
  {
    seq(|keys|, i requires 0 <= i < |keys| => assert keys[i] in keys; now[held[keys[i]]])
  }

  function HashesOf(held: Held, keys: seq<Key>): seq<Hash>
    requires forall k :: k in keys ==> k in held
  {
    seq(|keys|, i requires 0 <= i < |keys| => assert keys[i] in keys; held[keys[i]])
  }

  lemma HashesAreValues(held: Held, keys: seq<Key>)
    requires forall k :: k in keys <==> k in held
    ensures SetOf(HashesOf(held, keys)) == held.Values
  {
    var hs := HashesOf(held, keys);
    forall h | h in held.Values ensures h in hs {
      var k :| k in held && held[k] == h;
      var i :| 0 <= i < |keys| && keys[i] == k;
      assert hs[i] == h;
    }
  }

  lemma ClearingReleases(c: Config, pool: Pool, dir: Dir, held: Held, keys: seq<Key>, now: map<Hash, Creds>, order: seq<Hash>)
    requires Recoverable(c, pool) && Iterates(order, pool) && (forall k :: k in keys <==> k in held)
    requires (forall k :: k in held ==> held[k] in now) && AllMade(c, pool, held, now)
    ensures var (dir', failure) := Cleared(c, pool, dir, EntriesOf(held, keys, now), order);
            failure == None && Locks(dir') == Locks(dir) - held.Values
  {
    var hs := HashesOf(held, keys);
    forall i | 0 <= i < |keys| ensures MadeOf(c, pool, EntriesOf(held, keys, now)[i], hs[i]) {
      assert keys[i] in keys;
    }
    HashesAreValues(held, keys);
    ClearedReleases(c, pool, dir, hs, EntriesOf(held, keys, now), order);
  }
}
