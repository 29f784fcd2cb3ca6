/** Every interleaving of any number of providers over one lock directory.

The atomic steps are those taken under the external lock; what a provider does to
its own dictionary is seen by no one else. A provider is cleared once, as its last
action, lock by lock: for each entry the search of `get_hash` decides which lock goes.
*/
module Interleavings {
  import opened Options
  import opened Allocation
  import opened Providers
  import opened Credentials

  datatype Phase = Active | Clearing(left: seq<Hash>)

  /** Each provider has its own identity version. */
  datatype Provider = Provider(name: string, version: Version, held: Held, phase: Phase) {

    predicate Holds(h: Hash) {
      match phase
      case Active => Has(held, h)
      case Clearing(left) => h in left
    }

    predicate NothingTwice() {
      match phase
      case Active => forall j, k :: j in held && k in held && held[j] == held[k] ==> j == k
      case Clearing(left) => forall i, j :: 0 <= i < j < |left| ==> left[i] != left[j]
    }

    /** So that the next moved key, which carries the size, is a new one. */
    predicate Indexed() {
      forall k :: k in held && k.MovedKey? ==> k.index < |held|
    }
  }

  datatype World = World(dir: Dir, providers: seq<Provider>)

  datatype Label =
    | Ask(p: nat, req: Request, candidates: seq<Hash>)
    | Clear(p: nat, keys: seq<Key>)
    | Release(p: nat, making: Making, order: seq<Hash>)

  /** The configuration as the acting provider has it. */
  function Own(c: Config, w: World, l: Label): Config
    requires l.p < |w.providers|
  {
    c.For(w.providers[l.p].version)
  }

  ghost predicate Enabled(c: Config, pool: Pool, w: World, l: Label) {
    && l.p < |w.providers|
    && var p, own := w.providers[l.p], Own(c, w, l);
       match l
       case Ask(_, req, candidates) => p.phase.Active? && Lists(candidates, Candidates(own, pool, req.Roles()))
       case Clear(_, keys) => p.phase.Active? && (forall k :: k in keys <==> k in p.held)
                               && forall i, j :: 0 <= i < j < |keys| ==> keys[i] != keys[j]
       case Release(_, making, order) =>
         && p.phase.Clearing? && p.phase.left != [] && p.phase.left[0] in pool.creds
         && CanMake(own, pool.creds[p.phase.left[0]], making) && Iterates(order, pool)
  }

  /** What the search for the next entry to release answers. The credentials are those
      made of its account, in some order, and filled and reset since. */
  function Answered(c: Config, pool: Pool, w: World, l: Label): (Dir, Search)
    requires Enabled(c, pool, w, l) && l.Release?
  {
    var own := Own(c, w, l);
    GiveBack(own, pool, w.dir, Made(own, pool.creds[w.providers[l.p].phase.left[0]], l.making), l.order)
  }

  /** A search that fails ends the clearing. */
  function Next(c: Config, pool: Pool, w: World, l: Label): World
    requires Enabled(c, pool, w, l)
  {
    var p := w.providers[l.p];
    match l
    case Ask(i, req, candidates) =>
      var (dir, held, _) := Answer(Own(c, w, l), pool, w.dir, p.name, p.held, req, candidates);
      World(dir, w.providers[i := p.(held := held)])
    case Clear(i, keys) =>
      var left := seq(|keys|, j requires 0 <= j < |keys| => assert keys[j] in keys; p.held[keys[j]]);
      World(w.dir, w.providers[i := p.(phase := Clearing(left))])
    case Release(i, _, _) =>
      var (dir, r) := Answered(c, pool, w, l);
      World(dir, w.providers[i := p.(phase := Clearing(if r.Found? then p.phase.left[1..] else []))])
  }

  /** A forced request for roles already served that gets no account. */
  ghost predicate InVain(c: Config, pool: Pool, w: World, l: Label)
    requires Enabled(c, pool, w, l)
  {
    l.Ask? && Moves(w.providers[l.p].held, l.req)
    && (Candidates(Own(c, w, l), pool, l.req.Roles()).None? || forall h :: h in l.candidates ==> h in Locks(w.dir))
  }

  /** An account is taken that makes no credentials. */
  ghost predicate TakesUnusable(c: Config, pool: Pool, w: World, l: Label)
    requires Enabled(c, pool, w, l)
  {
    l.Ask? && !Hit(w.providers[l.p].held, l.req) && Candidates(Own(c, w, l), pool, l.req.Roles()).Some?
    && var h := FirstFree(l.candidates, Locks(w.dir)); h.Some? && !Admits(Own(c, w, l), pool, h.value)
  }

  /** The search does not come back to the account the credentials were made of. */
  ghost predicate Misses(c: Config, pool: Pool, w: World, l: Label)
    requires Enabled(c, pool, w, l)
  {
    l.Release? && Answered(c, pool, w, l).1 != Found(w.providers[l.p].phase.left[0])
  }

  ghost predicate Loses(c: Config, pool: Pool, w: World, l: Label)
    requires Enabled(c, pool, w, l)
  {
    InVain(c, pool, w, l) || TakesUnusable(c, pool, w, l) || Misses(c, pool, w, l)
  }

  ghost predicate Locked(w: World, h: Hash) {
    h in Locks(w.dir)
  }

  ghost predicate IsHeld(w: World, h: Hash) {
    exists i :: 0 <= i < |w.providers| && w.providers[i].Holds(h)
  }

  /** No account is held twice, by two providers or by one, and all are of the pool;
      the lock files are those found at the start (`stale`, perhaps left by processes
      that died) and, apart from them, one per account held, naming its holder. */
  ghost predicate Safe(stale: set<Hash>, pool: Pool, w: World) {
    && (forall i :: 0 <= i < |w.providers| ==> w.providers[i].NothingTwice() && w.providers[i].Indexed())
    && (forall i, j, h :: 0 <= i < j < |w.providers| && w.providers[i].Holds(h) ==> !w.providers[j].Holds(h))
    && (forall h :: Locked(w, h) <==> h in stale || IsHeld(w, h))
    && forall i, h :: 0 <= i < |w.providers| && w.providers[i].Holds(h)
                      ==> h !in stale && h in pool.creds && Locked(w, h) && Locks(w.dir)[h] == w.providers[i].name
  }

  // ----- one provider changes -----

  ghost predicate OtherHolds(w: World, i: nat, h: Hash) {
    exists j :: 0 <= j < |w.providers| && j != i && w.providers[j].Holds(h)
  }

  ghost predicate LockedAs(dir: Dir, h: Hash, name: string) {
    h in Locks(dir) && Locks(dir)[h] == name
  }

  /** What Safe says about one provider and the others. */
  lemma SafeForOne(stale: set<Hash>, pool: Pool, w: World, i: nat, h: Hash)
    requires Safe(stale, pool, w) && i < |w.providers|
    ensures Locked(w, h) <==> h in stale || w.providers[i].Holds(h) || OtherHolds(w, i, h)
    ensures w.providers[i].Holds(h) ==>
              !OtherHolds(w, i, h) && h !in stale && h in pool.creds && LockedAs(w.dir, h, w.providers[i].name)
    ensures OtherHolds(w, i, h) ==> h !in stale && Locked(w, h)
  {
    assert Locked(w, h) <==> h in stale || IsHeld(w, h);
  }

  /** Replacing one provider and the directory. */
  lemma Replace(stale: set<Hash>, pool: Pool, w: World, i: nat, p: Provider, dir: Dir)
    requires Safe(stale, pool, w) && i < |w.providers| && p.NothingTwice() && p.Indexed()
    requires forall h :: h in Locks(dir) <==> h in stale || p.Holds(h) || OtherHolds(w, i, h)
    requires forall h :: p.Holds(h) ==> !OtherHolds(w, i, h) && h !in stale && h in pool.creds && LockedAs(dir, h, p.name)
    requires forall h :: OtherHolds(w, i, h) && Locked(w, h) ==> LockedAs(dir, h, Locks(w.dir)[h])
    ensures Safe(stale, pool, World(dir, w.providers[i := p]))
  {
    var w' := World(dir, w.providers[i := p]);
    forall j | 0 <= j < |w.providers| && j != i ensures w'.providers[j] == w.providers[j] {
    }
    forall h ensures Locked(w', h) <==> h in stale || IsHeld(w', h) {
      if p.Holds(h) {
        assert w'.providers[i].Holds(h);
      } else if OtherHolds(w, i, h) {
        var j :| 0 <= j < |w.providers| && j != i && w.providers[j].Holds(h);
        assert w'.providers[j].Holds(h);
      }
    }
    forall j, h | 0 <= j < |w'.providers| && w'.providers[j].Holds(h)
      ensures h !in stale && h in pool.creds && Locked(w', h) && Locks(dir)[h] == w'.providers[j].name
    {
      if j != i {
        assert w.providers[j].Holds(h) && OtherHolds(w, i, h);
      }
    }
  }

  /** The provider takes a free account and locks it. */
  lemma Gains(stale: set<Hash>, pool: Pool, w: World, i: nat, p: Provider, h: Hash, dir: Dir)
    requires Safe(stale, pool, w) && i < |w.providers| && p.name == w.providers[i].name
    requires p.NothingTwice() && p.Indexed()
    requires forall x :: p.Holds(x) <==> w.providers[i].Holds(x) || x == h
    requires !Locked(w, h) && h in pool.creds && Locks(dir) == Locks(w.dir)[h := p.name]
    ensures Safe(stale, pool, World(dir, w.providers[i := p]))
  {
    forall x {
      SafeForOne(stale, pool, w, i, x);
    }
    Replace(stale, pool, w, i, p, dir);
  }

  /** The provider gives an account back and unlocks it. */
  lemma Drops(stale: set<Hash>, pool: Pool, w: World, i: nat, p: Provider, h: Hash, dir: Dir)
    requires Safe(stale, pool, w) && i < |w.providers| && p.name == w.providers[i].name
    requires p.NothingTwice() && p.Indexed()
    requires w.providers[i].Holds(h) && forall x :: p.Holds(x) <==> w.providers[i].Holds(x) && x != h
    requires Locks(dir) == Locks(w.dir) - {h}
    ensures Safe(stale, pool, World(dir, w.providers[i := p]))
  {
    forall x {
      SafeForOne(stale, pool, w, i, x);
    }
    Replace(stale, pool, w, i, p, dir);
  }

  /** Nothing changes hands. */
  lemma Keeps(stale: set<Hash>, pool: Pool, w: World, i: nat, p: Provider, dir: Dir)
    requires Safe(stale, pool, w) && i < |w.providers| && p.name == w.providers[i].name
    requires p.NothingTwice() && p.Indexed()
    requires (forall x :: p.Holds(x) <==> w.providers[i].Holds(x)) && Locks(dir) == Locks(w.dir)
    ensures Safe(stale, pool, World(dir, w.providers[i := p]))
  {
    forall x {
      SafeForOne(stale, pool, w, i, x);
    }
    Replace(stale, pool, w, i, p, dir);
  }

  // ----- the steps -----

  /** The key a forced request moves its old entry to is a new one. */
  lemma MovedKeyIsNew(p: Provider, roles: seq<string>)
    requires p.Indexed()
    ensures MovedKey(roles, |p.held|) !in p.held
  {
  }

  lemma SizeGrows(held: Held, k: Key, h: Hash)
    ensures |held[k := h]| == if k in held then |held| else |held| + 1
  {
    assert held[k := h].Keys == held.Keys + {k};
  }

  /** An allocation adds one account to the dictionary and loses none. */
  lemma AllocationAdds(p: Provider, req: Request, h: Hash)
    requires p.phase.Active? && p.NothingTwice() && p.Indexed() && !p.Holds(h) && !Hit(p.held, req)
    ensures var p' := p.(held := Moved(p.held, req)[req.Key() := h]);
            p'.NothingTwice() && p'.Indexed() && forall x :: p'.Holds(x) <==> p.Holds(x) || x == h
  {
    var key := req.Key();
    if Moves(p.held, req) {
      var mk := MovedKey(req.Roles(), |p.held|);
      MovedKeyIsNew(p, req.Roles());
      SizeGrows(p.held, mk, p.held[key]);
      SizeGrows(Moved(p.held, req), key, h);
      MoveAdds(p, p.(held := p.held[mk := p.held[key]][key := h]), key, mk, h);
    } else {
      SizeGrows(p.held, key, h);
      PlainAdds(p, p.(held := p.held[key := h]), key, h);
    }
  }

  lemma PlainAdds(p: Provider, p': Provider, key: Key, h: Hash)
    requires p.phase.Active? && p.NothingTwice() && p.Indexed() && !p.Holds(h) && key !in p.held && !key.MovedKey?
    requires p' == p.(held := p.held[key := h]) && |p'.held| > |p.held|
    ensures p'.NothingTwice() && p'.Indexed() && forall x :: p'.Holds(x) <==> p.Holds(x) || x == h
  {
    assert p'.held[key] == h;
    forall x | p.Holds(x) ensures p'.Holds(x) {
      var k :| k in p.held && p.held[k] == x;
      assert k in p'.held && p'.held[k] == x;
    }
  }

  lemma MoveAdds(p: Provider, p': Provider, key: Key, mk: Key, h: Hash)
    requires p.phase.Active? && p.NothingTwice() && p.Indexed() && !p.Holds(h)
    requires key in p.held && !key.MovedKey? && mk !in p.held && mk.MovedKey? && mk.index == |p.held|
    requires p' == p.(held := p.held[mk := p.held[key]][key := h]) && |p'.held| > |p.held|
    ensures p'.NothingTwice() && p'.Indexed() && forall x :: p'.Holds(x) <==> p.Holds(x) || x == h
  {
    MoveKeepsDistinct(p.held, p'.held, key, mk, h);
    forall x ensures p'.Holds(x) <==> p.Holds(x) || x == h {
      MoveHolds(p.held, p'.held, key, mk, h, x);
    }
  }

  /** The account is in the dictionary. */
  predicate Has(m: Held, x: Hash) {
    exists k :: k in m && m[k] == x
  }

  lemma MoveHolds(m: Held, m': Held, key: Key, mk: Key, h: Hash, x: Hash)
    requires key in m && mk !in m && mk != key && m' == m[mk := m[key]][key := h]
    ensures Has(m', x) <==> Has(m, x) || x == h
  {
    assert m'[key] == h && m'[mk] == m[key];
    if k :| k in m && m[k] == x {
      assert m'[if k == key then mk else k] == x;
    }
    if k :| k in m' && m'[k] == x {
      assert k != key ==> m[if k == mk then key else k] == x;
    }
  }

  lemma MoveKeepsDistinct(m: Held, m': Held, key: Key, mk: Key, h: Hash)
    requires forall j, k :: j in m && k in m && m[j] == m[k] ==> j == k
    requires (forall k :: k in m ==> m[k] != h) && key in m && mk !in m && mk != key
    requires m' == m[mk := m[key]][key := h]
    ensures forall j, k :: j in m' && k in m' && m'[j] == m'[k] ==> j == k
  {
    forall j, k | j in m' && k in m' && m'[j] == m'[k] ensures j == k {
      var j0, k0 := if j == mk then key else j, if k == mk then key else k;
      if j != key && k != key {
        assert m[j0] == m[k0];
      }
    }
  }

  /** A request that moved nothing and got nothing, or was answered from the
      dictionary, leaves the dictionary as it was. */
  lemma AskKept(stale: set<Hash>, c: Config, pool: Pool, w: World, l: Label)
    requires Safe(stale, pool, w) && Enabled(c, pool, w, l) && l.Ask? && !Loses(c, pool, w, l)
    ensures Safe(stale, pool, Next(c, pool, w, l))
  {
    var p := w.providers[l.p];
    var (dir, held, r) := Answer(Own(c, w, l), pool, w.dir, p.name, p.held, l.req, l.candidates);
    TakeIsRight(w.dir, l.candidates, p.name);
    if !Hit(p.held, l.req) && r.Given? {
      assert !Locked(w, r.hash);
      SafeForOne(stale, pool, w, l.p, r.hash);
      AllocationAdds(p, l.req, r.hash);
      Gains(stale, pool, w, l.p, p.(held := held), r.hash, dir);
    } else {
      assert held == p.held;
      Keeps(stale, pool, w, l.p, p, dir);
    }
  }

  /** A request in vain leaves one account under two keys. */
  lemma VainIsUnsafe(stale: set<Hash>, c: Config, pool: Pool, w: World, l: Label)
    requires Safe(stale, pool, w) && Enabled(c, pool, w, l) && InVain(c, pool, w, l)
    ensures !Safe(stale, pool, Next(c, pool, w, l))
  {
    var p := w.providers[l.p];
    TakeIsRight(w.dir, l.candidates, p.name);
    MovedKeyIsNew(p, l.req.Roles());
    var p' := Next(c, pool, w, l).providers[l.p];
    assert p'.held == Moved(p.held, l.req);
    var j, k := l.req.Key(), MovedKey(l.req.Roles(), |p.held|);
    assert p'.held[j] == p'.held[k] && j != k;
    assert !p'.NothingTwice();
  }

  /** Locked, found so by no one at the start, and held by no one. */
  ghost predicate Leaked(stale: set<Hash>, w: World, h: Hash) {
    Locked(w, h) && h !in stale && !IsHeld(w, h)
  }

  lemma LeaksAreUnsafe(stale: set<Hash>, pool: Pool, w: World, h: Hash)
    requires Leaked(stale, w, h)
    ensures !Safe(stale, pool, w)
  {
  }

  /** When one provider changes and neither it nor another holds h, no one does. */
  lemma NotHeld(w: World, i: nat, p: Provider, dir: Dir, h: Hash)
    requires i < |w.providers| && !p.Holds(h) && !OtherHolds(w, i, h)
    ensures !IsHeld(World(dir, w.providers[i := p]), h)
  {
  }

  /** A rejected account stays locked with no holder. */
  lemma RejectedIsLeaked(stale: set<Hash>, c: Config, pool: Pool, w: World, l: Label)
    requires Safe(stale, pool, w) && Enabled(c, pool, w, l) && TakesUnusable(c, pool, w, l)
    ensures Leaked(stale, Next(c, pool, w, l), FirstFree(l.candidates, Locks(w.dir)).value)
  {
    var p, h := w.providers[l.p], FirstFree(l.candidates, Locks(w.dir)).value;
    TakeIsRight(w.dir, l.candidates, p.name);
    SafeForOne(stale, pool, w, l.p, h);
    var p' := p.(held := Moved(p.held, l.req));
    assert forall k :: k in p'.held ==> p.Holds(p'.held[k]);
    NotHeld(w, l.p, p', Next(c, pool, w, l).dir, h);
  }

  /** A search that misses leaves the lock with no holder; one that fails, the locks of
      all entries not released yet. */
  lemma MissedIsLeaked(stale: set<Hash>, c: Config, pool: Pool, w: World, l: Label, h: Hash)
    requires Safe(stale, pool, w) && Enabled(c, pool, w, l) && Misses(c, pool, w, l)
    requires var left := w.providers[l.p].phase.left; h == left[0] || (h in left && !Answered(c, pool, w, l).1.Found?)
    ensures Leaked(stale, Next(c, pool, w, l), h)
  {
    var p := w.providers[l.p];
    var (dir, r) := Answered(c, pool, w, l);
    SafeForOne(stale, pool, w, l.p, h);
    if r.Found? {
      RemoveUnlocks(w.dir, r.hash);
    }
    NotHeld(w, l.p, p.(phase := Clearing(if r.Found? then p.phase.left[1..] else [])), dir, h);
  }

  lemma ClearKept(stale: set<Hash>, c: Config, pool: Pool, w: World, l: Label)
    requires Safe(stale, pool, w) && Enabled(c, pool, w, l) && l.Clear?
    ensures Safe(stale, pool, Next(c, pool, w, l))
  {
    var p := w.providers[l.p];
    var p' := Next(c, pool, w, l).providers[l.p];
    var left := p'.phase.left;
    forall i, j | 0 <= i < j < |left| ensures left[i] != left[j] {
      assert l.keys[i] in l.keys && l.keys[j] in l.keys;
    }
    forall h ensures p'.Holds(h) <==> p.Holds(h) {
      if p.Holds(h) {
        var k :| k in p.held && p.held[k] == h;
        assert k in l.keys;
        var i :| 0 <= i < |l.keys| && l.keys[i] == k;
        assert left[i] == h;
      }
    }
    Keeps(stale, pool, w, l.p, p', w.dir);
  }

  lemma ReleaseKept(stale: set<Hash>, c: Config, pool: Pool, w: World, l: Label)
    requires Safe(stale, pool, w) && Enabled(c, pool, w, l) && l.Release? && !Misses(c, pool, w, l)
    ensures Safe(stale, pool, Next(c, pool, w, l))
  {
    var p := w.providers[l.p];
    var left := p.phase.left;
    var p' := p.(phase := Clearing(left[1..]));
    RemoveUnlocks(w.dir, left[0]);
    forall h ensures p'.Holds(h) <==> p.Holds(h) && h != left[0] {
    }
    Drops(stale, pool, w, l.p, p', left[0], Remove(w.dir, left[0]));
  }

  /** One step keeps the world safe if and only if it is no forced request that finds
      every candidate locked, takes no account that makes no credentials, and no search
      of it misses. */
  lemma StepIsSafeExactly(stale: set<Hash>, c: Config, pool: Pool, w: World, l: Label)
    requires Safe(stale, pool, w) && Enabled(c, pool, w, l)
    ensures Safe(stale, pool, Next(c, pool, w, l)) <==> !Loses(c, pool, w, l)
  {
    if InVain(c, pool, w, l) {
      VainIsUnsafe(stale, c, pool, w, l);
    } else if TakesUnusable(c, pool, w, l) {
      RejectedIsLeaked(stale, c, pool, w, l);
      LeaksAreUnsafe(stale, pool, Next(c, pool, w, l), FirstFree(l.candidates, Locks(w.dir)).value);
    } else if Misses(c, pool, w, l) {
      MissedIsLeaked(stale, c, pool, w, l, w.providers[l.p].phase.left[0]);
      LeaksAreUnsafe(stale, pool, Next(c, pool, w, l), w.providers[l.p].phase.left[0]);
    } else {
      match l
      case Ask(_, _, _) => AskKept(stale, c, pool, w, l);
      case Clear(_, _) => ClearKept(stale, c, pool, w, l);
      case Release(_, _, _) => ReleaseKept(stale, c, pool, w, l);
    }
  }

  // ----- runs -----

  ghost predicate IsRun(c: Config, pool: Pool, w: World, ls: seq<Label>)
    decreases |ls|
  {
    ls != [] ==> Enabled(c, pool, w, ls[0]) && IsRun(c, pool, Next(c, pool, w, ls[0]), ls[1..])
  }

  ghost predicate SafeThroughout(stale: set<Hash>, c: Config, pool: Pool, w: World, ls: seq<Label>)
    requires IsRun(c, pool, w, ls)
    decreases |ls|
  {
    Safe(stale, pool, w) && (ls != [] ==> SafeThroughout(stale, c, pool, Next(c, pool, w, ls[0]), ls[1..]))
  }

  ghost predicate Lossless(c: Config, pool: Pool, w: World, ls: seq<Label>)
    requires IsRun(c, pool, w, ls)
    decreases |ls|
  {
    ls != [] ==> !Loses(c, pool, w, ls[0]) && Lossless(c, pool, Next(c, pool, w, ls[0]), ls[1..])
  }

  ghost function After(c: Config, pool: Pool, w: World, ls: seq<Label>): World
    requires IsRun(c, pool, w, ls)
    decreases |ls|
  {
    if ls == [] then w else After(c, pool, Next(c, pool, w, ls[0]), ls[1..])
  }

  /** Providers that have asked for nothing yet, and the lock files found. */
  predicate IsStart(stale: set<Hash>, w: World) {
    && Locks(w.dir).Keys == stale
    && forall i :: 0 <= i < |w.providers| ==> w.providers[i].held == map[] && w.providers[i].phase == Active
  }

  lemma StartIsSafe(stale: set<Hash>, pool: Pool, w: World)
    requires IsStart(stale, w)
    ensures Safe(stale, pool, w)
  {
  }

  lemma {:induction false} RunFromSafe(stale: set<Hash>, c: Config, pool: Pool, w: World, ls: seq<Label>)
    requires IsRun(c, pool, w, ls) && Safe(stale, pool, w)
    ensures SafeThroughout(stale, c, pool, w, ls) <==> Lossless(c, pool, w, ls)
    decreases |ls|
  {
    if ls != [] {
      var w' := Next(c, pool, w, ls[0]);
      StepIsSafeExactly(stale, c, pool, w, ls[0]);
      if Safe(stale, pool, w') {
        RunFromSafe(stale, c, pool, w', ls[1..]);
      }
    }
  }

  /** In every interleaving of any number of providers: the run is safe throughout if
      and only if no step of it loses track of an account. */
  lemma RunsAreSafeExactly(stale: set<Hash>, c: Config, pool: Pool, w: World, ls: seq<Label>)
    requires IsRun(c, pool, w, ls) && IsStart(stale, w)
    ensures SafeThroughout(stale, c, pool, w, ls) <==> Lossless(c, pool, w, ls)
  {
    StartIsSafe(stale, pool, w);
    RunFromSafe(stale, c, pool, w, ls);
  }

  lemma {:induction false} SafeAtTheEnd(stale: set<Hash>, c: Config, pool: Pool, w: World, ls: seq<Label>)
    requires IsRun(c, pool, w, ls) && SafeThroughout(stale, c, pool, w, ls)
    ensures Safe(stale, pool, After(c, pool, w, ls))
    decreases |ls|
  {
    if ls != [] {
      SafeAtTheEnd(stale, c, pool, Next(c, pool, w, ls[0]), ls[1..]);
    }
  }

  /** Once every provider has released what it held, the locks are those found at
      the start. */
  lemma AllIsReleased(stale: set<Hash>, c: Config, pool: Pool, w: World, ls: seq<Label>)
    requires IsRun(c, pool, w, ls) && IsStart(stale, w) && Lossless(c, pool, w, ls)
    requires forall p :: p in After(c, pool, w, ls).providers ==> p.phase == Clearing([])
    ensures Locks(After(c, pool, w, ls).dir).Keys == stale
  {
    RunsAreSafeExactly(stale, c, pool, w, ls);
    SafeAtTheEnd(stale, c, pool, w, ls);
    var end := After(c, pool, w, ls);
    forall h ensures h in Locks(end.dir) <==> h in stale {
      assert Locked(end, h) <==> h in stale || IsHeld(end, h);
      forall i | 0 <= i < |end.providers| ensures !end.providers[i].Holds(h) {
        assert end.providers[i] in end.providers;
      }
    }
  }

  // ----- what a provider is given -----

  /** Requests that the dictionary is to tell apart from all others. */
  predicate SameKind(r: Request, s: Request) {
    match r
    case Primary => s.Primary?
    case Alt => s.Alt?
    case ByRoles(roles, _) => s.ByRoles? && s.roles == roles
  }

  lemma KeysAreKinds(r: Request, s: Request)
    ensures r.Key() == s.Key() <==> SameKind(r, s)
    ensures !r.Key().MovedKey?
  {
  }

  /** A request by roles with force_new. */
  predicate IsForced(r: Request) {
    match r
    case ByRoles(_, forceNew) => forceNew
    case _ => false
  }

  ghost function Replied(c: Config, pool: Pool, w: World, l: Label): Reply
    requires Enabled(c, pool, w, l) && l.Ask?
  {
    var p := w.providers[l.p];
    Answer(Own(c, w, l), pool, w.dir, p.name, p.held, l.req, l.candidates).2
  }

  /** A forced request of that kind by that provider. */
  predicate Renews(l: Label, i: nat, kind: Request) {
    l.Ask? && l.p == i && IsForced(l.req) && SameKind(kind, l.req)
  }

  /** The account is still what requests of the kind get, or has been moved aside. */
  predicate IsFiled(held: Held, kind: Request, h: Hash, current: bool) {
    if current then kind.Key() in held && held[kind.Key()] == h
    else exists k :: k in held && k.MovedKey? && held[k] == h
  }

  predicate Tracks(p: Provider, kind: Request, h: Hash, current: bool) {
    p.phase.Active? && IsFiled(p.held, kind, h, current)
  }

  lemma FiledIsHeld(p: Provider, kind: Request, h: Hash, current: bool)
    requires Tracks(p, kind, h, current)
    ensures p.Holds(h)
  {
  }

  lemma GivenIsTracked(stale: set<Hash>, c: Config, pool: Pool, w: World, l: Label)
    requires Safe(stale, pool, w) && Enabled(c, pool, w, l) && l.Ask? && Replied(c, pool, w, l).Given?
    ensures Tracks(Next(c, pool, w, l).providers[l.p], l.req, Replied(c, pool, w, l).hash, true)
  {
  }

  lemma HitIsOwn(p: Provider, req: Request, kind: Request, h: Hash, current: bool)
    requires Tracks(p, kind, h, current) && p.NothingTwice() && Hit(p.held, req)
    ensures p.held[req.Key()] == h <==> SameKind(kind, req) && current
  {
    KeysAreKinds(kind, req);
    KeysAreKinds(req, kind);
  }

  lemma AllocationFiles(p: Provider, req: Request, g: Hash, kind: Request, h: Hash, current: bool)
    requires Tracks(p, kind, h, current) && p.Indexed() && !Hit(p.held, req)
    ensures IsFiled(Moved(p.held, req)[req.Key() := g], kind, h, current && !(IsForced(req) && SameKind(kind, req)))
  {
    KeysAreKinds(kind, req);
    KeysAreKinds(req, kind);
    MovedKeyIsNew(p, req.Roles());
    var held' := Moved(p.held, req)[req.Key() := g];
    if current && SameKind(kind, req) {
      assert held'[MovedKey(req.Roles(), |p.held|)] == h;
    } else if !current {
      var k :| k in p.held && k.MovedKey? && p.held[k] == h;
      assert k in held' && held'[k] == h;
    }
  }

  /** Another request of an active provider, seen from one kind of request. */
  lemma AskTracks(stale: set<Hash>, c: Config, pool: Pool, w: World, l: Label, kind: Request, h: Hash, current: bool)
    requires Safe(stale, pool, w) && Enabled(c, pool, w, l) && l.Ask? && !Loses(c, pool, w, l)
    requires Tracks(w.providers[l.p], kind, h, current)
    ensures Tracks(Next(c, pool, w, l).providers[l.p], kind, h, current && !Renews(l, l.p, kind))
    ensures var r := Replied(c, pool, w, l);
            r.Given? ==> (r.hash == h <==> SameKind(kind, l.req) && current && !IsForced(l.req))
  {
    var p := w.providers[l.p];
    var (dir, held, r) := Answer(Own(c, w, l), pool, w.dir, p.name, p.held, l.req, l.candidates);
    TakeIsRight(w.dir, l.candidates, p.name);
    if Hit(p.held, l.req) {
      HitIsOwn(p, l.req, kind, h, current);
    } else if r.Given? {
      FiledIsHeld(p, kind, h, current);
      SafeForOne(stale, pool, w, l.p, h);
      AllocationFiles(p, l.req, r.hash, kind, h, current);
      KeysAreKinds(kind, l.req);
    } else {
      NotGivenIsUnmoved(c, pool, w, l);
      KeysAreKinds(kind, l.req);
    }
  }

  /** A request that lost nothing and got nothing left the dictionary alone, and was for
      something not in it. */
  lemma NotGivenIsUnmoved(c: Config, pool: Pool, w: World, l: Label)
    requires Enabled(c, pool, w, l) && l.Ask? && !Loses(c, pool, w, l) && !Replied(c, pool, w, l).Given?
    ensures Next(c, pool, w, l).providers[l.p].held == w.providers[l.p].held && l.req.Key() !in w.providers[l.p].held
  {
    TakeIsRight(w.dir, l.candidates, w.providers[l.p].name);
  }

  lemma {:induction false} StaysInactive(c: Config, pool: Pool, w: World, ls: seq<Label>, i: nat)
    requires IsRun(c, pool, w, ls) && i < |w.providers| && !w.providers[i].phase.Active?
    ensures i < |After(c, pool, w, ls).providers| && !After(c, pool, w, ls).providers[i].phase.Active?
    decreases |ls|
  {
    if ls != [] {
      StaysInactive(c, pool, Next(c, pool, w, ls[0]), ls[1..], i);
    }
  }

  ghost predicate IsActive(w: World, i: nat) {
    i < |w.providers| && w.providers[i].phase.Active?
  }

  lemma StepTracks(stale: set<Hash>, c: Config, pool: Pool, w: World, l: Label, i: nat, kind: Request, h: Hash, current: bool)
    requires Safe(stale, pool, w) && Enabled(c, pool, w, l) && !Loses(c, pool, w, l) && i < |w.providers|
    requires Tracks(w.providers[i], kind, h, current) && Next(c, pool, w, l).providers[i].phase.Active?
    ensures Tracks(Next(c, pool, w, l).providers[i], kind, h, current && !Renews(l, i, kind))
  {
    if l.p == i {
      AskTracks(stale, c, pool, w, l, kind, h, current);
    }
  }

  ghost predicate NoneRenews(ls: seq<Label>, i: nat, kind: Request) {
    forall l :: l in ls ==> !Renews(l, i, kind)
  }

  lemma NoneRenewsCons(ls: seq<Label>, i: nat, kind: Request)
    requires ls != []
    ensures NoneRenews(ls, i, kind) <==> !Renews(ls[0], i, kind) && NoneRenews(ls[1..], i, kind)
  {
    assert ls == [ls[0]] + ls[1..];
  }

  lemma {:induction false} RunTracks(stale: set<Hash>, c: Config, pool: Pool, w: World, ls: seq<Label>, i: nat, kind: Request,
                                     h: Hash, current: bool)
    requires Safe(stale, pool, w) && IsRun(c, pool, w, ls) && Lossless(c, pool, w, ls) && i < |w.providers|
    requires IsActive(After(c, pool, w, ls), i) && Tracks(w.providers[i], kind, h, current)
    ensures Safe(stale, pool, After(c, pool, w, ls))
    ensures Tracks(After(c, pool, w, ls).providers[i], kind, h, current && NoneRenews(ls, i, kind))
    decreases |ls|
  {
    if ls != [] {
      StillActive(c, pool, w, ls, i);
      StepTracks(stale, c, pool, w, ls[0], i, kind, h, current);
      StepIsSafeExactly(stale, c, pool, w, ls[0]);
      RunTracks(stale, c, pool, Next(c, pool, w, ls[0]), ls[1..], i, kind, h, current && !Renews(ls[0], i, kind));
      NoneRenewsCons(ls, i, kind);
    }
  }

  lemma StillActive(c: Config, pool: Pool, w: World, ls: seq<Label>, i: nat)
    requires ls != [] && IsRun(c, pool, w, ls) && i < |w.providers| && IsActive(After(c, pool, w, ls), i)
    ensures IsActive(Next(c, pool, w, ls[0]), i)
  {
    if !IsActive(Next(c, pool, w, ls[0]), i) {
      StaysInactive(c, pool, Next(c, pool, w, ls[0]), ls[1..], i);
    }
  }

  /** Whatever all providers do in between: a provider gets the same account twice if and
      only if it asked for the same, primary, alternate or those roles, and did not force
      a new one since. So a primary request, an alternate one and requests for different
      roles never get the same account, and each goes on getting its own. */
  lemma AnswersAreOwn(stale: set<Hash>, c: Config, pool: Pool, w: World, l1: Label, between: seq<Label>, l2: Label)
    requires Safe(stale, pool, w) && Enabled(c, pool, w, l1) && l1.Ask? && !Loses(c, pool, w, l1)
    requires var w1 := Next(c, pool, w, l1);
             && IsRun(c, pool, w1, between) && Lossless(c, pool, w1, between)
             && var w2 := After(c, pool, w1, between);
                && Enabled(c, pool, w2, l2) && l2.Ask? && l2.p == l1.p && !Loses(c, pool, w2, l2)
                && Replied(c, pool, w, l1).Given? && Replied(c, pool, w2, l2).Given?
    ensures Replied(c, pool, w, l1).hash == Replied(c, pool, After(c, pool, Next(c, pool, w, l1), between), l2).hash <==>
            SameKind(l1.req, l2.req) && !IsForced(l2.req) && NoneRenews(between, l1.p, l1.req)
  {
    var h := Replied(c, pool, w, l1).hash;
    GivenIsTracked(stale, c, pool, w, l1);
    StepIsSafeExactly(stale, c, pool, w, l1);
    RunTracks(stale, c, pool, Next(c, pool, w, l1), between, l1.p, l1.req, h, true);
    AskTracks(stale, c, pool, After(c, pool, Next(c, pool, w, l1), between), l2, l1.req, h,
              NoneRenews(between, l1.p, l1.req));
  }

  // ----- pools that lose nothing -----

  /** Every account makes credentials, and the search comes back from them. */
  ghost predicate Sound(c: Config, pool: Pool) {
    forall h :: h in pool.creds ==> Usable(c, pool.creds[h]) && KeepsOwn(c, pool.creds[h]) && ToldApart(c, pool, h)
  }

  ghost predicate NoneInVain(c: Config, pool: Pool, w: World, ls: seq<Label>)
    requires IsRun(c, pool, w, ls)
    decreases |ls|
  {
    ls != [] ==> !InVain(c, pool, w, ls[0]) && NoneInVain(c, pool, Next(c, pool, w, ls[0]), ls[1..])
  }

  ghost predicate SoundFor(c: Config, pool: Pool, versions: set<Version>) {
    forall v :: v in versions ==> Sound(c.For(v), pool)
  }

  ghost predicate UsesOnly(w: World, versions: set<Version>) {
    forall i :: 0 <= i < |w.providers| ==> w.providers[i].version in versions
  }

  lemma SoundStep(c: Config, pool: Pool, versions: set<Version>, w: World, l: Label)
    requires SoundFor(c, pool, versions) && UsesOnly(w, versions) && Enabled(c, pool, w, l)
    ensures Loses(c, pool, w, l) <==> InVain(c, pool, w, l)
    ensures UsesOnly(Next(c, pool, w, l), versions)
  {
    assert Sound(Own(c, w, l), pool);
    match l
    case Ask(_, req, candidates) =>
      FirstFreeIsFirst(candidates, Locks(w.dir));
      var h := FirstFree(candidates, Locks(w.dir));
      assert h.Some? ==> h.value in SetOf(candidates);
    case Release(i, m, order) =>
      HashIsRecovered(Own(c, w, l), pool, w.providers[i].phase.left[0], m, order);
    case Clear(_, _) =>
  }

  lemma {:induction false} SoundRunsAreLossless(c: Config, pool: Pool, versions: set<Version>, w: World, ls: seq<Label>)
    requires SoundFor(c, pool, versions) && UsesOnly(w, versions) && IsRun(c, pool, w, ls)
    ensures Lossless(c, pool, w, ls) <==> NoneInVain(c, pool, w, ls)
    decreases |ls|
  {
    if ls != [] {
      SoundStep(c, pool, versions, w, ls[0]);
      SoundRunsAreLossless(c, pool, versions, Next(c, pool, w, ls[0]), ls[1..]);
    }
  }

  /** Whatever locks are found and however any number of providers of these identity
      versions interleave. */
  ghost predicate AlwaysSafe(c: Config, pool: Pool, versions: set<Version>) {
    forall stale, w, ls ::
      IsStart(stale, w) && UsesOnly(w, versions) && IsRun(c, pool, w, ls) && NoneInVain(c, pool, w, ls)
      ==> SafeThroughout(stale, c, pool, w, ls)
  }

  /** An account file is safe to share among providers of the given identity versions,
      in every run without a forced request in vain, if and only if for each of those
      versions each of its accounts makes credentials, has no attributes that contend or
      that its scope takes over, and can be told from the others. */
  lemma PoolsAreSafeExactly(c: Config, pool: Pool, versions: set<Version>)
    ensures SoundFor(c, pool, versions) <==> AlwaysSafe(c, pool, versions)
  {
    if SoundFor(c, pool, versions) {
      forall stale, w, ls |
        IsStart(stale, w) && UsesOnly(w, versions) && IsRun(c, pool, w, ls) && NoneInVain(c, pool, w, ls)
        ensures SafeThroughout(stale, c, pool, w, ls)
      {
        SoundRunsAreLossless(c, pool, versions, w, ls);
        RunsAreSafeExactly(stale, c, pool, w, ls);
      }
    } else {
      var v :| v in versions && !Sound(c.For(v), pool);
      var h := NotSound(c.For(v), pool);
      var ls := LosingRun(c, pool, v, h);
      assert UsesOnly(Alone(None, Idle(v, "p")), versions);
      RunsAreSafeExactly({}, c, pool, Alone(None, Idle(v, "p")), ls);
    }
  }

  lemma NotSound(c: Config, pool: Pool) returns (h: Hash)
    requires !Sound(c, pool)
    ensures h in pool.creds && !(Usable(c, pool.creds[h]) && Recovered(c, pool, h))
  {
    h :| h in pool.creds && !(Usable(c, pool.creds[h]) && KeepsOwn(c, pool.creds[h]) && ToldApart(c, pool, h));
    HashIsRecoveredExactly(c, pool, h);
  }

  function Idle(v: Version, n: string): Provider {
    Provider(n, v, map[], Active)
  }

  function Alone(dir: Dir, p: Provider): World {
    World(dir, [p])
  }

  /** A single provider, asking once and then clearing, loses such an account. */
  lemma LosingRun(c: Config, pool: Pool, v: Version, h: Hash) returns (ls: seq<Label>)
    requires h in pool.creds && !(Usable(c.For(v), pool.creds[h]) && Recovered(c.For(v), pool, h))
    ensures var w := Alone(None, Idle(v, "p"));
            IsStart({}, w) && IsRun(c, pool, w, ls) && NoneInVain(c, pool, w, ls) && !Lossless(c, pool, w, ls)
  {
    if Usable(c.For(v), pool.creds[h]) {
      var m, order := GoesAstray(c.For(v), pool, h);
      AstrayRun(c, pool, v, h, m, order);
      ls := [TryFirst(c.For(v), pool, h)] + AstrayRest(c.For(v), pool, h, m, order);
    } else {
      UnusableRun(c, pool, v, h);
      ls := [TryFirst(c.For(v), pool, h)];
    }
  }

  /** For an admin account the admin role is asked for. */
  ghost function RequestFor(c: Config, pool: Pool, h: Hash): Request {
    ByRoles(if pool.HasRole(h, c.adminRole) then [c.adminRole] else [], false)
  }

  ghost function TryFirst(c: Config, pool: Pool, h: Hash): Label {
    var hashes := Candidates(c, pool, RequestFor(c, pool, h).Roles());
    Ask(0, RequestFor(c, pool, h), [h] + SomeHashes(if hashes.Some? then hashes.value else {}))
  }

  ghost function AstrayRest(c: Config, pool: Pool, h: Hash, m: Making, order: seq<Hash>): seq<Label> {
    [Clear(0, [RequestFor(c, pool, h).Key()])] + [Release(0, m, order)]
  }

  lemma CanTryFirst(c: Config, pool: Pool, v: Version, h: Hash)
    requires h in pool.creds
    ensures var w, l := Alone(None, Idle(v, "p")), TryFirst(c.For(v), pool, h);
            Enabled(c, pool, w, l) && !InVain(c, pool, w, l) && FirstFree(l.candidates, map[]) == Some(h)
            && Candidates(c.For(v), pool, l.req.Roles()).Some? && IsStart({}, w)
  {
    var own := c.For(v);
    var hashes := Candidates(own, pool, RequestFor(own, pool, h).Roles());
    assert hashes.Some? && h in hashes.value;
    SetOfCons(h, SomeHashes(hashes.value));
    assert ([h] + SomeHashes(hashes.value))[0] == h;
  }

  lemma UnusableRun(c: Config, pool: Pool, v: Version, h: Hash)
    requires h in pool.creds && !Usable(c.For(v), pool.creds[h])
    ensures var w, ls := Alone(None, Idle(v, "p")), [TryFirst(c.For(v), pool, h)];
            IsStart({}, w) && IsRun(c, pool, w, ls) && NoneInVain(c, pool, w, ls) && !Lossless(c, pool, w, ls)
  {
    var w, l := Alone(None, Idle(v, "p")), TryFirst(c.For(v), pool, h);
    CanTryFirst(c, pool, v, h);
    assert TakesUnusable(c, pool, w, l);
    OneStepRun(c, pool, w, l);
  }

  lemma OneStepRun(c: Config, pool: Pool, w: World, l: Label)
    requires Enabled(c, pool, w, l)
    ensures IsRun(c, pool, w, [l])
    ensures NoneInVain(c, pool, w, [l]) <==> !InVain(c, pool, w, l)
    ensures Lossless(c, pool, w, [l]) <==> !Loses(c, pool, w, l)
  {
    assert [l][1..] == [];
  }

  lemma OneStepMore(c: Config, pool: Pool, w: World, l: Label, ls: seq<Label>)
    requires Enabled(c, pool, w, l) && IsRun(c, pool, Next(c, pool, w, l), ls)
    ensures IsRun(c, pool, w, [l] + ls)
    ensures NoneInVain(c, pool, w, [l] + ls) <==> !InVain(c, pool, w, l) && NoneInVain(c, pool, Next(c, pool, w, l), ls)
    ensures Lossless(c, pool, w, [l] + ls) <==> !Loses(c, pool, w, l) && Lossless(c, pool, Next(c, pool, w, l), ls)
  {
    assert ([l] + ls)[1..] == ls;
  }

  lemma AstrayRun(c: Config, pool: Pool, v: Version, h: Hash, m: Making, order: seq<Hash>)
    requires Admits(c.For(v), pool, h) && CanMake(c.For(v), pool.creds[h], m) && Iterates(order, pool)
    requires Lookup(c.For(v), pool, Made(c.For(v), pool.creds[h], m), order) != Found(h)
    ensures var w, ls := Alone(None, Idle(v, "p")), [TryFirst(c.For(v), pool, h)] + AstrayRest(c.For(v), pool, h, m, order);
            IsStart({}, w) && IsRun(c, pool, w, ls) && NoneInVain(c, pool, w, ls) && !Lossless(c, pool, w, ls)
  {
    TakenFirst(c, pool, v, h);
    ClearedAstray(c, pool, v, h, RequestFor(c.For(v), pool, h).Key(), m, order);
    OneStepMore(c, pool, Alone(None, Idle(v, "p")), TryFirst(c.For(v), pool, h), AstrayRest(c.For(v), pool, h, m, order));
  }

  lemma TakenFirst(c: Config, pool: Pool, v: Version, h: Hash)
    requires Admits(c.For(v), pool, h)
    ensures var w, l := Alone(None, Idle(v, "p")), TryFirst(c.For(v), pool, h);
            && Enabled(c, pool, w, l) && !InVain(c, pool, w, l) && IsStart({}, w)
            && Next(c, pool, w, l)
               == Alone(Some(map[h := "p"]), Provider("p", v, map[RequestFor(c.For(v), pool, h).Key() := h], Active))
  {
    CanTryFirst(c, pool, v, h);
  }

  lemma ClearedAstray(c: Config, pool: Pool, v: Version, h: Hash, key: Key, m: Making, order: seq<Hash>)
    requires h in pool.creds && CanMake(c.For(v), pool.creds[h], m) && Iterates(order, pool)
    requires Lookup(c.For(v), pool, Made(c.For(v), pool.creds[h], m), order) != Found(h)
    ensures var w := Alone(Some(map[h := "p"]), Provider("p", v, map[key := h], Active));
            var ls := [Clear(0, [key])] + [Release(0, m, order)];
            IsRun(c, pool, w, ls) && NoneInVain(c, pool, w, ls) && !Lossless(c, pool, w, ls)
  {
    var w1 := Alone(Some(map[h := "p"]), Provider("p", v, map[key := h], Active));
    var w2 := Alone(w1.dir, w1.providers[0].(phase := Clearing([h])));
    ClearsOne(c, pool, w1, 0, key, h);
    var l2 := Release(0, m, order);
    assert Enabled(c, pool, w2, l2);
    assert Misses(c, pool, w2, l2);
    OneStepRun(c, pool, w2, l2);
    OneStepMore(c, pool, w1, Clear(0, [key]), [l2]);
  }

  /** A provider with a single entry begins its clearing. */
  lemma ClearsOne(c: Config, pool: Pool, w: World, i: nat, key: Key, h: Hash)
    requires i < |w.providers| && w.providers[i] == Provider(w.providers[i].name, w.providers[i].version, map[key := h], Active)
    ensures Enabled(c, pool, w, Clear(i, [key]))
    ensures Next(c, pool, w, Clear(i, [key])) == World(w.dir, w.providers[i := w.providers[i].(phase := Clearing([h]))])
  {
    assert Next(c, pool, w, Clear(i, [key])).providers[i].phase.left == [h];
  }

  /** A provider releases whatever the search finds. */
  lemma ReleasesFound(c: Config, pool: Pool, w: World, i: nat, h: Hash, left: seq<Hash>, m: Making, order: seq<Hash>, g: Hash)
    requires i < |w.providers| && w.providers[i].phase == Clearing([h] + left) && h in pool.creds && Iterates(order, pool)
    requires var own := c.For(w.providers[i].version);
             CanMake(own, pool.creds[h], m) && Lookup(own, pool, Made(own, pool.creds[h], m), order) == Found(g)
    ensures var l := Release(i, m, order);
            Enabled(c, pool, w, l)
            && Next(c, pool, w, l) == World(Remove(w.dir, g), w.providers[i := w.providers[i].(phase := Clearing(left))])
  {
    assert ([h] + left)[0] == h && ([h] + left)[1..] == left;
  }

  // ----- runs that end with two providers on one account -----

  function Three(dir: Dir, a: Provider, b: Provider, c: Provider): World {
    World(dir, [a, b, c])
  }

  /** ... the first of three, say. */
  lemma FirstReleases(c: Config, pool: Pool, dir: Dir, p: Provider, x: Provider, y: Provider, h: Hash, left: seq<Hash>,
                      m: Making, order: seq<Hash>, g: Hash)
    requires p.phase == Clearing([h] + left) && h in pool.creds && Iterates(order, pool)
    requires var own := c.For(p.version);
             CanMake(own, pool.creds[h], m) && Lookup(own, pool, Made(own, pool.creds[h], m), order) == Found(g)
    ensures var w, l := Three(dir, p, x, y), Release(0, m, order);
            Enabled(c, pool, w, l) && Next(c, pool, w, l) == Three(Remove(dir, g), p.(phase := Clearing(left)), x, y)
  {
    ReleasesFound(c, pool, Three(dir, p, x, y), 0, h, left, m, order, g);
  }

  function Holder(v: Version, n: string, h: Hash): Provider {
    Provider(n, v, map[PrimaryKey := h], Active)
  }

  function AllIdle(v: Version): World {
    Three(None, Idle(v, "a"), Idle(v, "b"), Idle(v, "c"))
  }

  lemma AllIdleIsStart(v: Version)
    ensures IsStart({}, AllIdle(v))
  {
  }

  lemma HolderHolds(v: Version, n: string, h: Hash)
    ensures Holder(v, n, h).Holds(h)
  {
    assert Holder(v, n, h).held[PrimaryKey] == h;
  }

  ghost predicate Ends(c: Config, pool: Pool, w: World, ls: seq<Label>, end: World) {
    IsRun(c, pool, w, ls) && After(c, pool, w, ls) == end
  }

  lemma StepTo(c: Config, pool: Pool, w: World, l: Label, w': World, ls: seq<Label>, end: World)
    requires Enabled(c, pool, w, l) && Next(c, pool, w, l) == w' && Ends(c, pool, w', ls, end)
    ensures Ends(c, pool, w, [l] + ls, end)
  {
    assert ([l] + ls)[1..] == ls;
  }

  /** The last two of three providers hold one account. */
  ghost predicate Shared(pool: Pool, w: World, h: Hash) {
    |w.providers| == 3 && w.providers[1].Holds(h) && w.providers[2].Holds(h) && !Safe({}, pool, w)
  }

  lemma HoldersShare(pool: Pool, v: Version, dir: Dir, p: Provider, h: Hash)
    ensures Shared(pool, Three(dir, p, Holder(v, "b", h), Holder(v, "c", h)), h)
  {
    HolderHolds(v, "b", h);
    HolderHolds(v, "c", h);
  }

  /** An idle provider takes the first candidate, which is free. */
  lemma TakesIt(c: Config, pool: Pool, w: World, i: nat, req: Request, candidates: seq<Hash>)
    requires i < |w.providers| && w.providers[i] == Idle(w.providers[i].version, w.providers[i].name)
    requires Candidates(c.For(w.providers[i].version), pool, req.Roles()) == Some(SetOf(candidates))
    requires candidates != [] && candidates[0] !in Locks(w.dir) && Admits(c.For(w.providers[i].version), pool, candidates[0])
    ensures Enabled(c, pool, w, Ask(i, req, candidates))
    ensures var p := w.providers[i];
            Next(c, pool, w, Ask(i, req, candidates))
            == World(Some(Locks(w.dir)[candidates[0] := p.name]),
                     w.providers[i := Provider(p.name, p.version, map[req.Key() := candidates[0]], Active)])
  {
  }

  // ----- by a forced request in vain -----

  /** Three providers of one version over a pool with a single account, and the roles
      the first one asks for. */
  datatype Scene = Scene(c: Config, pool: Pool, v: Version, h: Hash, roles: seq<string>) {

    /** The account is the only candidate for these roles. */
    ghost predicate IsCandidate(rs: seq<string>) {
      Candidates(c.For(v), pool, rs) == Some(SetOf([h]))
    }

    /** It is found from its credentials. */
    ghost predicate ComesBack() {
      && h in pool.creds && Iterates([h], pool)
      && Lookup(c.For(v), pool, Made(c.For(v), pool.creds[h], SomeMaking(c.For(v), pool.creds[h])), [h]) == Found(h)
    }

    ghost predicate Valid() {
      IsCandidate([]) && IsCandidate(roles) && Admits(c.For(v), pool, h) && ComesBack()
    }

    ghost predicate StepsTo(w: World, l: Label, w': World) {
      Enabled(c, pool, w, l) && Next(c, pool, w, l) == w'
    }

    ghost predicate Leads(w: World, ls: seq<Label>) {
      Ends(c, pool, w, ls, Shown())
    }

    function Served(): Provider {
      Provider("a", v, map[RolesKey(roles) := h], Active)
    }

    function Lost(): Provider {
      Provider("a", v, map[RolesKey(roles) := h, MovedKey(roles, 1) := h], Active)
    }

    function Releasing(left: seq<Hash>): Provider {
      Lost().(phase := Clearing(left))
    }

    function LockedBy(name: string): Dir {
      Some(map[h := name])
    }

    function Shown(): World {
      Three(LockedBy("c"), Releasing([]), Holder(v, "b", h), Holder(v, "c", h))
    }

    ghost function ReleaseOne(): Label
      requires h in pool.creds
    {
      Release(0, SomeMaking(c.For(v), pool.creds[h]), [h])
    }

    ghost function ClearBoth(): Label {
      Clear(0, [RolesKey(roles), MovedKey(roles, 1)])
    }

    ghost function Rest4(): seq<Label>
      requires h in pool.creds
    {
      [Ask(1, Primary, [h])] + ([ReleaseOne()] + ([Ask(2, Primary, [h])] + []))
    }

    ghost function Rest2(): seq<Label>
      requires h in pool.creds
    {
      [ClearBoth()] + ([ReleaseOne()] + Rest4())
    }

    ghost function Run(): seq<Label>
      requires h in pool.creds
    {
      [Ask(0, ByRoles(roles, false), [h])] + ([Ask(0, ByRoles(roles, true), [h])] + Rest2())
    }

    lemma Then(w: World, l: Label, w': World, ls: seq<Label>)
      requires StepsTo(w, l, w') && Leads(w', ls)
      ensures Leads(w, [l] + ls)
    {
      StepTo(c, pool, w, l, w', ls, Shown());
    }

    // ----- the steps -----

    lemma Serves()
      requires IsCandidate(roles) && Admits(c.For(v), pool, h)
      ensures StepsTo(AllIdle(v), Ask(0, ByRoles(roles, false), [h]), Three(LockedBy("a"), Served(), Idle(v, "b"), Idle(v, "c")))
    {
      TakesIt(c, pool, AllIdle(v), 0, ByRoles(roles, false), [h]);
    }

    lemma Loses()
      requires IsCandidate(roles)
      ensures StepsTo(Three(LockedBy("a"), Served(), Idle(v, "b"), Idle(v, "c")), Ask(0, ByRoles(roles, true), [h]),
                      Three(LockedBy("a"), Lost(), Idle(v, "b"), Idle(v, "c")))
    {
      var w := Three(LockedBy("a"), Served(), Idle(v, "b"), Idle(v, "c"));
      TakesNothing("a");
      assert Moved(Served().held, ByRoles(roles, true)) == Lost().held;
      assert w.providers[0 := Lost()] == [Lost(), Idle(v, "b"), Idle(v, "c")];
    }

    lemma TakesNothing(name: string)
      ensures var (dir, r) := Take(LockedBy("a"), [h], name);
              dir == LockedBy("a") && r.Insufficient?
    {
      assert FirstFree([h], map[h := "a"]) == FirstFree([h][1..], map[h := "a"]) == None;
    }

    lemma Clears(dir: Dir, x: Provider, y: Provider)
      ensures StepsTo(Three(dir, Lost(), x, y), ClearBoth(), Three(dir, Releasing([h, h]), x, y))
    {
      assert Next(c, pool, Three(dir, Lost(), x, y), ClearBoth()).providers[0].phase.left == [h, h];
    }

    lemma Releases(name: string, left: seq<Hash>, x: Provider, y: Provider)
      requires ComesBack()
      ensures StepsTo(Three(LockedBy(name), Releasing([h] + left), x, y), ReleaseOne(), Three(None, Releasing(left), x, y))
    {
      Unlocks(name);
      FirstReleases(c, pool, LockedBy(name), Releasing([h] + left), x, y, h, left, SomeMaking(c.For(v), pool.creds[h]), [h], h);
    }

    lemma Unlocks(name: string)
      ensures Remove(LockedBy(name), h) == None
    {
      assert map[h := name] - {h} == map[];
    }

    lemma SecondTakes()
      requires IsCandidate([]) && Admits(c.For(v), pool, h)
      ensures StepsTo(Three(None, Releasing([h]), Idle(v, "b"), Idle(v, "c")), Ask(1, Primary, [h]),
                      Three(LockedBy("b"), Releasing([h]), Holder(v, "b", h), Idle(v, "c")))
    {
      TakesIt(c, pool, Three(None, Releasing([h]), Idle(v, "b"), Idle(v, "c")), 1, Primary, [h]);
    }

    lemma ThirdTakes()
      requires IsCandidate([]) && Admits(c.For(v), pool, h)
      ensures StepsTo(Three(None, Releasing([]), Holder(v, "b", h), Idle(v, "c")), Ask(2, Primary, [h]), Shown())
    {
      TakesIt(c, pool, Three(None, Releasing([]), Holder(v, "b", h), Idle(v, "c")), 2, Primary, [h]);
    }

    // ----- the run, from its end -----

    lemma LastTwo()
      requires Valid()
      ensures Leads(Three(LockedBy("b"), Releasing([h]), Holder(v, "b", h), Idle(v, "c")),
                    [ReleaseOne()] + ([Ask(2, Primary, [h])] + []))
    {
      ThirdTakes();
      Then(Three(None, Releasing([]), Holder(v, "b", h), Idle(v, "c")), Ask(2, Primary, [h]), Shown(), []);
      assert [h] + [] == [h];
      Releases("b", [], Holder(v, "b", h), Idle(v, "c"));
      Then(Three(LockedBy("b"), Releasing([h]), Holder(v, "b", h), Idle(v, "c")), ReleaseOne(),
           Three(None, Releasing([]), Holder(v, "b", h), Idle(v, "c")), [Ask(2, Primary, [h])] + []);
    }

    lemma ReleasedOnce()
      requires Valid()
      ensures Leads(Three(LockedBy("a"), Releasing([h, h]), Idle(v, "b"), Idle(v, "c")), [ReleaseOne()] + Rest4())
    {
      LastTwo();
      SecondTakes();
      Then(Three(None, Releasing([h]), Idle(v, "b"), Idle(v, "c")), Ask(1, Primary, [h]),
           Three(LockedBy("b"), Releasing([h]), Holder(v, "b", h), Idle(v, "c")), [ReleaseOne()] + ([Ask(2, Primary, [h])] + []));
      assert [h] + [h] == [h, h];
      Releases("a", [h], Idle(v, "b"), Idle(v, "c"));
      Then(Three(LockedBy("a"), Releasing([h, h]), Idle(v, "b"), Idle(v, "c")), ReleaseOne(),
           Three(None, Releasing([h]), Idle(v, "b"), Idle(v, "c")), Rest4());
    }

    lemma LostOnce()
      requires Valid()
      ensures Leads(Three(LockedBy("a"), Lost(), Idle(v, "b"), Idle(v, "c")), Rest2())
    {
      ReleasedOnce();
      Clears(LockedBy("a"), Idle(v, "b"), Idle(v, "c"));
      Then(Three(LockedBy("a"), Lost(), Idle(v, "b"), Idle(v, "c")), ClearBoth(),
           Three(LockedBy("a"), Releasing([h, h]), Idle(v, "b"), Idle(v, "c")), [ReleaseOne()] + Rest4());
    }

    lemma FromTheStart()
      requires Valid()
      ensures Leads(AllIdle(v), Run())
    {
      LostOnce();
      Loses();
      Then(Three(LockedBy("a"), Served(), Idle(v, "b"), Idle(v, "c")), Ask(0, ByRoles(roles, true), [h]),
           Three(LockedBy("a"), Lost(), Idle(v, "b"), Idle(v, "c")), Rest2());
      Serves();
      Then(AllIdle(v), Ask(0, ByRoles(roles, false), [h]), Three(LockedBy("a"), Served(), Idle(v, "b"), Idle(v, "c")),
           [Ask(0, ByRoles(roles, true), [h])] + Rest2());
    }

    /** The only account of a sound pool; it has the roles and is no admin. */
    ghost predicate IsSole() {
      && Sound(c.For(v), pool) && pool.creds.Keys == {h} && !pool.HasRole(h, c.adminRole)
      && forall r :: r in roles ==> pool.HasRole(h, r)
    }

    lemma SoleIsValid()
      requires IsSole()
      ensures Valid()
    {
      SoleIsCandidate([]);
      SoleIsCandidate(roles);
      assert h in pool.creds.Keys && Iterates([h], pool);
      HashIsRecovered(c.For(v), pool, h, SomeMaking(c.For(v), pool.creds[h]), [h]);
    }

    lemma SoleIsCandidate(rs: seq<string>)
      requires IsSole() && forall r :: r in rs ==> pool.HasRole(h, r)
      ensures Candidates(c.For(v), pool, rs) == Some(SetOf([h]))
    {
      assert forall g :: g in pool.creds ==> g in pool.creds.Keys;
      assert Candidates(c.For(v), pool, rs).value == {h} == SetOf([h]);
    }
  }

  /** One sound account, three providers. The first asks for it twice, the second time
      by force and in vain; its clearing then releases the account twice, the second
      time after another provider took it, and a third provider gets it as well. */
  lemma LostRequestCanShareAnAccount(s: Scene)
    requires s.IsSole()
    ensures IsStart({}, AllIdle(s.v)) && s.h in s.pool.creds
    ensures Ends(s.c, s.pool, AllIdle(s.v), s.Run(), s.Shown()) && Shared(s.pool, s.Shown(), s.h)
  {
    AllIdleIsStart(s.v);
    s.SoleIsValid();
    HoldersShare(s.pool, s.v, s.LockedBy("c"), s.Releasing([]), s.h);
    s.FromTheStart();
  }

  // ----- by a search that finds another account -----

  /** Two accounts without roles, the second with the first's project name for its
      tenant too. */
  ghost predicate Namesakes(c: Config, pool: Pool, x: Hash, y: Hash) {
    && pool.roles == map[] && x in pool.creds && y in pool.creds && pool.creds.Keys == {x, y}
    && var a := pool.creds[x];
       GivesBoth(a) && pool.creds[y] == Namesake(a) && a[TenantName] != a[ProjectName] && c.scope(a) == None
  }

  lemma BothAreCandidates(c: Config, pool: Pool, x: Hash, y: Hash)
    requires Namesakes(c, pool, x, y)
    ensures Candidates(c.For(V3), pool, []) == Some(SetOf([x, y])) == Some(SetOf([y, x]))
    ensures Iterates([x, y], pool) && x != y && Admits(c.For(V3), pool, x) && Admits(c.For(V3), pool, y)
  {
    assert Candidates(c.For(V3), pool, []).value == pool.creds.Keys;
    assert SetOf([x, y]) == {x, y} == SetOf([y, x]);
    GivesBothIsUsable(c.For(V3), pool.creds[x]);
    GivesBothIsUsable(c.For(V3), pool.creds[y]);
  }

  function ReleaseFirst(x: Hash, y: Hash, ts: seq<Token>): Label {
    Release(0, Making(PROJECT_LAST, ts), [x, y])
  }

  function Cleared1(dir: Dir, left: seq<Hash>, h: Hash, b: Provider, c: Provider): World {
    Three(dir, Holder(V3, "a", h).(phase := Clearing(left)), b, c)
  }

  function NamesakeRun(x: Hash, y: Hash, ts: seq<Token>): seq<Label> {
    [Ask(0, Primary, [x, y])] + ([Ask(1, Primary, [y, x])] + ([Clear(0, [PrimaryKey])]
      + ([ReleaseFirst(x, y, ts)] + ([Ask(2, Primary, [y, x])] + []))))
  }

  lemma ReleasesTheOther(c: Config, pool: Pool, x: Hash, y: Hash, ts: seq<Token>)
    requires Namesakes(c, pool, x, y) && ScopedTo(ts, None)
    ensures var w, l := Cleared1(BothLocked(x, y, "b"), [x], x, Holder(V3, "b", y), Idle(V3, "c")), ReleaseFirst(x, y, ts);
            Enabled(c, pool, w, l)
            && Next(c, pool, w, l) == Cleared1(Some(map[x := "a"]), [], x, Holder(V3, "b", y), Idle(V3, "c"))
  {
    OtherIsFound(c, pool, x, y, ts);
    UnlocksOther(x, y);
    ReleasesLast(c, pool, BothLocked(x, y, "b"), x, Making(PROJECT_LAST, ts), [x, y], y, Holder(V3, "b", y), Idle(V3, "c"));
  }

  lemma ReleasesLast(c: Config, pool: Pool, dir: Dir, h: Hash, m: Making, order: seq<Hash>, g: Hash, x: Provider, y: Provider)
    requires h in pool.creds && CanMake(c.For(V3), pool.creds[h], m) && Iterates(order, pool)
    requires Lookup(c.For(V3), pool, Made(c.For(V3), pool.creds[h], m), order) == Found(g)
    ensures var w, l := Cleared1(dir, [h], h, x, y), Release(0, m, order);
            Enabled(c, pool, w, l) && Next(c, pool, w, l) == Cleared1(Remove(dir, g), [], h, x, y)
  {
    assert [h] + [] == [h];
    FirstReleases(c, pool, dir, Holder(V3, "a", h).(phase := Clearing([h])), x, y, h, [], m, order, g);
  }

  lemma OtherIsFound(c: Config, pool: Pool, x: Hash, y: Hash, ts: seq<Token>)
    requires Namesakes(c, pool, x, y) && ScopedTo(ts, None)
    ensures x != y && x in pool.creds && CanMake(c.For(V3), pool.creds[x], Making(PROJECT_LAST, ts)) && Iterates([x, y], pool)
    ensures Lookup(c.For(V3), pool, Made(c.For(V3), pool.creds[x], Making(PROJECT_LAST, ts)), [x, y]) == Found(y)
  {
    BothAreCandidates(c, pool, x, y);
    NamesakeIsFound(c.For(V3), pool, x, y, ts, [x, y]);
  }

  function BothLocked(x: Hash, y: Hash, name: string): Dir {
    Some(map[x := "a", y := name])
  }

  lemma UnlocksOther(x: Hash, y: Hash)
    requires x != y
    ensures Remove(BothLocked(x, y, "b"), y) == Some(map[x := "a"])
    ensures Some(Locks(Some(map[x := "a"]))[y := "b"]) == BothLocked(x, y, "b")
    ensures Some(Locks(Some(map[x := "a"]))[y := "c"]) == BothLocked(x, y, "c")
  {
    assert map[x := "a", y := "b"] - {y} == map[x := "a"];
    assert x in map[x := "a"];
  }

  /** No request is forced, and still: the first provider takes x and the second y; the
      first is cleared, which releases y; the third takes y as well, and x stays locked
      with no holder. */
  lemma NamesakesCanShareAnAccount(c: Config, pool: Pool, x: Hash, y: Hash, ts: seq<Token>)
    requires Namesakes(c, pool, x, y) && ScopedTo(ts, None)
    ensures IsStart({}, AllIdle(V3))
    ensures var end := Cleared1(BothLocked(x, y, "c"), [], x, Holder(V3, "b", y), Holder(V3, "c", y));
            && Ends(c, pool, AllIdle(V3), NamesakeRun(x, y, ts), end)
            && Shared(pool, end, y) && Leaked({}, end, x)
    ensures forall l :: l in NamesakeRun(x, y, ts) ==> NotForced(l)
  {
    BothAreCandidates(c, pool, x, y);
    NoneIsForced(x, y, ts);
    AllIdleIsStart(V3);
    var end := Cleared1(BothLocked(x, y, "c"), [], x, Holder(V3, "b", y), Holder(V3, "c", y));
    HoldersShare(pool, V3, end.dir, end.providers[0], y);
    XIsLeaked(x, y);
    LastOneTakesIt(c, pool, x, y, ts);
    TwoTakeBoth(c, pool, x, y, [ReleaseFirst(x, y, ts)] + ([Ask(2, Primary, [y, x])] + []), end);
  }

  predicate NotForced(l: Label) {
    l.Ask? ==> !l.req.Forced()
  }

  lemma NoneIsForced(x: Hash, y: Hash, ts: seq<Token>)
    ensures forall l :: l in NamesakeRun(x, y, ts) ==> NotForced(l)
  {
  }

  lemma XIsLeaked(x: Hash, y: Hash)
    requires x != y
    ensures Leaked({}, Cleared1(BothLocked(x, y, "c"), [], x, Holder(V3, "b", y), Holder(V3, "c", y)), x)
  {
    var end := Cleared1(BothLocked(x, y, "c"), [], x, Holder(V3, "b", y), Holder(V3, "c", y));
    assert !end.providers[0].Holds(x) && !end.providers[1].Holds(x) && !end.providers[2].Holds(x);
  }

  lemma LastOneTakesIt(c: Config, pool: Pool, x: Hash, y: Hash, ts: seq<Token>)
    requires Namesakes(c, pool, x, y) && ScopedTo(ts, None)
    ensures Ends(c, pool, Cleared1(BothLocked(x, y, "b"), [x], x, Holder(V3, "b", y), Idle(V3, "c")),
                 [ReleaseFirst(x, y, ts)] + ([Ask(2, Primary, [y, x])] + []),
                 Cleared1(BothLocked(x, y, "c"), [], x, Holder(V3, "b", y), Holder(V3, "c", y)))
  {
    BothAreCandidates(c, pool, x, y);
    UnlocksOther(x, y);
    var end := Cleared1(BothLocked(x, y, "c"), [], x, Holder(V3, "b", y), Holder(V3, "c", y));
    var w4 := Cleared1(Some(map[x := "a"]), [], x, Holder(V3, "b", y), Idle(V3, "c"));
    TakesIt(c, pool, w4, 2, Primary, [y, x]);
    StepTo(c, pool, w4, Ask(2, Primary, [y, x]), end, [], end);
    var w3 := Cleared1(BothLocked(x, y, "b"), [x], x, Holder(V3, "b", y), Idle(V3, "c"));
    ReleasesTheOther(c, pool, x, y, ts);
    StepTo(c, pool, w3, ReleaseFirst(x, y, ts), w4, [Ask(2, Primary, [y, x])] + [], end);
  }

  lemma TwoTakeBoth(c: Config, pool: Pool, x: Hash, y: Hash, ls: seq<Label>, end: World)
    requires Candidates(c.For(V3), pool, []) == Some(SetOf([x, y])) == Some(SetOf([y, x]))
    requires x != y && Admits(c.For(V3), pool, x) && Admits(c.For(V3), pool, y)
    requires Ends(c, pool, Cleared1(BothLocked(x, y, "b"), [x], x, Holder(V3, "b", y), Idle(V3, "c")), ls, end)
    ensures Ends(c, pool, AllIdle(V3),
                 [Ask(0, Primary, [x, y])] + ([Ask(1, Primary, [y, x])] + ([Clear(0, [PrimaryKey])] + ls)), end)
  {
    UnlocksOther(x, y);
    var w1 := Three(Some(map[x := "a"]), Holder(V3, "a", x), Idle(V3, "b"), Idle(V3, "c"));
    ThenCleared(c, pool, x, y, ls, end);
    TakesIt(c, pool, w1, 1, Primary, [y, x]);
    StepTo(c, pool, w1, Ask(1, Primary, [y, x]), BothHeld(x, y), [Clear(0, [PrimaryKey])] + ls, end);
    FirstTakesIt(c, pool, x, y);
    StepTo(c, pool, AllIdle(V3), Ask(0, Primary, [x, y]), w1, [Ask(1, Primary, [y, x])] + ([Clear(0, [PrimaryKey])] + ls), end);
  }

  function BothHeld(x: Hash, y: Hash): World {
    Three(BothLocked(x, y, "b"), Holder(V3, "a", x), Holder(V3, "b", y), Idle(V3, "c"))
  }

  lemma ThenCleared(c: Config, pool: Pool, x: Hash, y: Hash, ls: seq<Label>, end: World)
    requires Ends(c, pool, Cleared1(BothLocked(x, y, "b"), [x], x, Holder(V3, "b", y), Idle(V3, "c")), ls, end)
    ensures Ends(c, pool, BothHeld(x, y), [Clear(0, [PrimaryKey])] + ls, end)
  {
    ClearsOne(c, pool, BothHeld(x, y), 0, PrimaryKey, x);
    StepTo(c, pool, BothHeld(x, y), Clear(0, [PrimaryKey]),
           Cleared1(BothLocked(x, y, "b"), [x], x, Holder(V3, "b", y), Idle(V3, "c")), ls, end);
  }

  lemma FirstTakesIt(c: Config, pool: Pool, x: Hash, y: Hash)
    requires Candidates(c.For(V3), pool, []) == Some(SetOf([x, y])) && Admits(c.For(V3), pool, x)
    ensures Enabled(c, pool, AllIdle(V3), Ask(0, Primary, [x, y]))
    ensures Next(c, pool, AllIdle(V3), Ask(0, Primary, [x, y]))
            == Three(Some(map[x := "a"]), Holder(V3, "a", x), Idle(V3, "b"), Idle(V3, "c"))
  {
    TakesIt(c, pool, AllIdle(V3), 0, Primary, [x, y]);
    assert Locks(None)[x := "a"] == map[x := "a"];
  }
}
