/** Keystone v3 credentials: attributes that set one another, filled from a token and
reset to what they were built from.
*/
module Credentials {
  import opened Options

  datatype Attr =
    | DomainId | DomainName | Password | Username
    | ProjectDomainId | ProjectDomainName | ProjectId | ProjectName | TenantId | TenantName
    | UserDomainId | UserDomainName | UserId

  const ATTRIBUTES: seq<Attr> := [
    DomainId, DomainName, Password, Username, ProjectDomainId, ProjectDomainName, ProjectId, ProjectName,
    TenantId, TenantName, UserDomainId, UserDomainName, UserId]

  /** What the attributes read as. One stored as None reads like one never set. */
  type State = map<Attr, string>

  function Get(s: State, k: Attr): Option<string> {
    if k in s then Some(s[k]) else None
  }

  function Put(s: State, k: Attr, v: Option<string>): State {
    if v.Some? then s[k := v.value] else s - {k}
  }

  /** The attribute that always takes the same value ... */
  function Mirror(k: Attr): Option<Attr> {
    match k
    case TenantId => Some(ProjectId)
    case ProjectId => Some(TenantId)
    case TenantName => Some(ProjectName)
    case ProjectName => Some(TenantName)
    case _ => None
  }

  /** ... and the one that takes it only while unset. */
  function Twin(k: Attr): Option<Attr> {
    match k
    case UserDomainId => Some(ProjectDomainId)
    case ProjectDomainId => Some(UserDomainId)
    case UserDomainName => Some(ProjectDomainName)
    case ProjectDomainName => Some(UserDomainName)
    case _ => None
  }

  function PutMirror(s: State, k: Attr, v: Option<string>): State {
    if Mirror(k).Some? then Put(s, Mirror(k).value, v) else s
  }

  function PutTwin(s: State, k: Attr, v: Option<string>): State {
    if Twin(k).Some? && Get(s, Twin(k).value).None? then Put(s, Twin(k).value, v) else s
  }

  function PutDomainNames(s: State, k: Attr, v: Option<string>): State {
    if k == DomainName then Put(Put(s, UserDomainName, v), ProjectDomainName, v) else s
  }

  /** One assignment, with its effects on other attributes. */
  function Assign(s: State, k: Attr, v: Option<string>): State {
    Put(PutDomainNames(PutTwin(PutMirror(s, k, v), k, v), k, v), k, v)
  }

  /** The keyword arguments, taken in the given order. */
  type Kwargs = map<Attr, Option<string>>

  function Apply(s: State, kwargs: Kwargs, order: seq<Attr>): State
    requires forall k :: k in order ==> k in kwargs
  {
    if order == [] then s
    else
      var n := |order| - 1;
      Assign(Apply(s, kwargs, order[..n]), order[n], kwargs[order[n]])
  }

  ghost predicate IsOrder(order: seq<Attr>, keys: set<Attr>) {
    && (forall k :: k in order <==> k in keys)
    && forall i, j :: 0 <= i < j < |order| ==> order[i] != order[j]
  }

  // ----- order independence -----

  predicate Same(kwargs: Kwargs, a: Attr, b: Attr) {
    a in kwargs && b in kwargs ==> kwargs[a] == kwargs[b]
  }

  predicate BothOrNeither(kwargs: Kwargs, a: Attr, b: Attr) {
    a in kwargs && b in kwargs ==> (kwargs[a].Some? <==> kwargs[b].Some?)
  }

  /** No two arguments contend for an attribute. */
  predicate Consistent(kwargs: Kwargs) {
    && Same(kwargs, TenantId, ProjectId) && Same(kwargs, TenantName, ProjectName)
    && Same(kwargs, DomainName, UserDomainName) && Same(kwargs, DomainName, ProjectDomainName)
    && BothOrNeither(kwargs, UserDomainId, ProjectDomainId)
    && BothOrNeither(kwargs, UserDomainName, ProjectDomainName)
  }

  /** The first of two arguments that is given. */
  function Given(kwargs: Kwargs, a: Attr, b: Attr): Option<string> {
    if a in kwargs then kwargs[a] else if b in kwargs then kwargs[b] else None
  }

  /** What an attribute comes to, with no mention of any order. */
  function Final(kwargs: Kwargs, a: Attr): Option<string> {
    match a
    case TenantId => Given(kwargs, TenantId, ProjectId)
    case ProjectId => Given(kwargs, ProjectId, TenantId)
    case TenantName => Given(kwargs, TenantName, ProjectName)
    case ProjectName => Given(kwargs, ProjectName, TenantName)
    case UserDomainId => Given(kwargs, UserDomainId, ProjectDomainId)
    case ProjectDomainId => Given(kwargs, ProjectDomainId, UserDomainId)
    case UserDomainName =>
      if DomainName in kwargs then kwargs[DomainName] else Given(kwargs, UserDomainName, ProjectDomainName)
    case ProjectDomainName =>
      if DomainName in kwargs then kwargs[DomainName] else Given(kwargs, ProjectDomainName, UserDomainName)
    case _ => Given(kwargs, a, a)
  }

  ghost predicate IsFinal(s: State, kwargs: Kwargs) {
    forall a :: Get(s, a) == Final(kwargs, a)
  }

  function Restrict(kwargs: Kwargs, ks: seq<Attr>): Kwargs {
    map k | k in kwargs && k in ks :: kwargs[k]
  }

  /** An assignment as its readers see it. */
  function Reads(s: State, k: Attr, v: Option<string>, a: Attr): Option<string> {
    if a == k || Mirror(k) == Some(a) then v
    else if k == DomainName && (a == UserDomainName || a == ProjectDomainName) then v
    else if Twin(k) == Some(a) && Get(s, a).None? then v
    else Get(s, a)
  }

  lemma AssignReads(s: State, k: Attr, v: Option<string>, a: Attr)
    ensures Get(Assign(s, k, v), a) == Reads(s, k, v, a)
  {
    var s1 := PutMirror(s, k, v);
    var s2 := PutTwin(s1, k, v);
    MirrorReads(s, k, v, a);
    TwinReads(s, s1, k, v, a);
    DomainNamesRead(s2, k, v, a);
    PutReads(PutDomainNames(s2, k, v), k, v, a);
  }

  lemma MirrorReads(s: State, k: Attr, v: Option<string>, a: Attr)
    ensures Get(PutMirror(s, k, v), a) == if Mirror(k) == Some(a) then v else Get(s, a)
  {
  }

  lemma TwinReads(s: State, s1: State, k: Attr, v: Option<string>, a: Attr)
    requires s1 == PutMirror(s, k, v)
    ensures Get(PutTwin(s1, k, v), a) == if Twin(k) == Some(a) && Get(s, a).None? then v else Get(s1, a)
  {
  }

  lemma DomainNamesRead(s: State, k: Attr, v: Option<string>, a: Attr)
    ensures Get(PutDomainNames(s, k, v), a)
            == if k == DomainName && (a == UserDomainName || a == ProjectDomainName) then v else Get(s, a)
  {
  }

  lemma PutReads(s: State, k: Attr, v: Option<string>, a: Attr)
    ensures Get(Put(s, k, v), a) == if a == k then v else Get(s, a)
  {
  }

  lemma AssignStaysFinal(s: State, kwargs: Kwargs, k: Attr, v: Option<string>)
    requires IsFinal(s, kwargs) && k !in kwargs && Consistent(kwargs[k := v])
    ensures IsFinal(Assign(s, k, v), kwargs[k := v])
  {
    forall a ensures Get(Assign(s, k, v), a) == Final(kwargs[k := v], a) {
      AssignReads(s, k, v, a);
      ReadsFinal(s, kwargs, k, v, a);
    }
  }

  lemma ReadsFinal(s: State, kwargs: Kwargs, k: Attr, v: Option<string>, a: Attr)
    requires Get(s, a) == Final(kwargs, a) && k !in kwargs && Consistent(kwargs[k := v])
    ensures Reads(s, k, v, a) == Final(kwargs[k := v], a)
  {
    match a {
      case TenantId => MirrorReadsFinal(s, kwargs, k, v, a, ProjectId);
      case ProjectId => MirrorReadsFinal(s, kwargs, k, v, a, TenantId);
      case TenantName => MirrorReadsFinal(s, kwargs, k, v, a, ProjectName);
      case ProjectName => MirrorReadsFinal(s, kwargs, k, v, a, TenantName);
      case UserDomainId => DomainIdReadsFinal(s, kwargs, k, v, a, ProjectDomainId);
      case ProjectDomainId => DomainIdReadsFinal(s, kwargs, k, v, a, UserDomainId);
      case UserDomainName => DomainNameReadsFinal(s, kwargs, k, v, a, ProjectDomainName);
      case ProjectDomainName => DomainNameReadsFinal(s, kwargs, k, v, a, UserDomainName);
      case _ => PlainReadsFinal(s, kwargs, k, v, a);
    }
  }

  lemma PlainReadsFinal(s: State, kwargs: Kwargs, k: Attr, v: Option<string>, a: Attr)
    requires a in {DomainId, DomainName, Password, Username, UserId}
    requires Get(s, a) == Given(kwargs, a, a) && k !in kwargs
    ensures Reads(s, k, v, a) == Given(kwargs[k := v], a, a)
  {
  }

  lemma MirrorReadsFinal(s: State, kwargs: Kwargs, k: Attr, v: Option<string>, a: Attr, b: Attr)
    requires Mirror(a) == Some(b)
    requires Get(s, a) == Given(kwargs, a, b) && k !in kwargs && (Same(kwargs[k := v], a, b) || Same(kwargs[k := v], b, a))
    ensures Reads(s, k, v, a) == Given(kwargs[k := v], a, b)
  {
  }

  lemma DomainIdReadsFinal(s: State, kwargs: Kwargs, k: Attr, v: Option<string>, a: Attr, b: Attr)
    requires (a == UserDomainId || a == ProjectDomainId) && Twin(a) == Some(b)
    requires Get(s, a) == Given(kwargs, a, b) && k !in kwargs
    requires BothOrNeither(kwargs[k := v], a, b) || BothOrNeither(kwargs[k := v], b, a)
    ensures Reads(s, k, v, a) == Given(kwargs[k := v], a, b)
  {
  }

  lemma DomainNameReadsFinal(s: State, kwargs: Kwargs, k: Attr, v: Option<string>, a: Attr, b: Attr)
    requires (a == UserDomainName || a == ProjectDomainName) && Twin(a) == Some(b)
    requires Get(s, a) == Final(kwargs, a) && k !in kwargs
    requires Same(kwargs[k := v], DomainName, a) && Same(kwargs[k := v], DomainName, b)
    requires BothOrNeither(kwargs[k := v], a, b) || BothOrNeither(kwargs[k := v], b, a)
    ensures Reads(s, k, v, a) == Final(kwargs[k := v], a)
  {
  }

  lemma {:induction false} AppliedIsFinal(kwargs: Kwargs, order: seq<Attr>)
    requires Consistent(kwargs) && (forall k :: k in order ==> k in kwargs)
    requires forall i, j :: 0 <= i < j < |order| ==> order[i] != order[j]
    ensures IsFinal(Apply(map[], kwargs, order), Restrict(kwargs, order))
    decreases |order|
  {
    if order == [] {
      assert Apply(map[], kwargs, order) == map[];
    } else {
      var n := |order| - 1;
      var k := order[n];
      AppliedIsFinal(kwargs, order[..n]);
      var before := Restrict(kwargs, order[..n]);
      assert Restrict(kwargs, order) == before[k := kwargs[k]];
      AssignStaysFinal(Apply(map[], kwargs, order[..n]), before, k, kwargs[k]);
    }
  }

  lemma SameReadsSameState(s: State, t: State)
    requires forall a :: Get(s, a) == Get(t, a)
    ensures s == t
  {
    forall a ensures a in s <==> a in t {
      assert Get(s, a) == Get(t, a);
    }
    forall a | a in s ensures s[a] == t[a] {
      assert Get(s, a) == Get(t, a);
    }
  }

  ghost function SomeOrder(keys: set<Attr>): (order: seq<Attr>)
    ensures IsOrder(order, keys)
  {
    if keys == {} then []
    else
      var k :| k in keys;
      SomeOrder(keys - {k}) + [k]
  }

  ghost function OrderEndingIn(keys: set<Attr>, k: Attr): (order: seq<Attr>)
    requires k in keys
    ensures IsOrder(order, keys) && order[|order| - 1] == k
  {
    SomeOrder(keys - {k}) + [k]
  }

  /** Some order of the arguments ends in k, and then k's own effects stand. */
  lemma LastOneStands(kwargs: Kwargs, k: Attr, a: Attr)
    requires k in kwargs
    ensures var order := OrderEndingIn(kwargs.Keys, k);
            var before := Apply(map[], kwargs, order[..|order| - 1]);
            Get(Apply(map[], kwargs, order), a) == Reads(before, k, kwargs[k], a)
  {
    var order := OrderEndingIn(kwargs.Keys, k);
    AssignReads(Apply(map[], kwargs, order[..|order| - 1]), k, kwargs[k], a);
  }

  /** What only an argument of None could have set is unset. */
  lemma {:induction false} NoneStaysUnset(kwargs: Kwargs, order: seq<Attr>, a: Attr, other: Attr)
    requires forall k :: k in order ==> k in kwargs
    requires (a, other) in {(UserDomainId, ProjectDomainId), (ProjectDomainId, UserDomainId),
                            (UserDomainName, ProjectDomainName), (ProjectDomainName, UserDomainName)}
    requires other !in order && (DomainName in order ==> a != UserDomainName && a != ProjectDomainName)
    requires a in kwargs && kwargs[a] == None
    ensures Get(Apply(map[], kwargs, order), a) == None
    decreases |order|
  {
    if order != [] {
      var n := |order| - 1;
      NoneStaysUnset(kwargs, order[..n], a, other);
      AssignReads(Apply(map[], kwargs, order[..n]), order[n], kwargs[order[n]], a);
    }
  }

  ghost predicate OrderMatters(kwargs: Kwargs) {
    exists o1, o2 :: IsOrder(o1, kwargs.Keys) && IsOrder(o2, kwargs.Keys)
                     && Apply(map[], kwargs, o1) != Apply(map[], kwargs, o2)
  }

  /** In some order the attribute does not come to read as its own argument. */
  ghost predicate Overwritten(kwargs: Kwargs, a: Attr) {
    a in kwargs && exists o :: IsOrder(o, kwargs.Keys) && Get(Apply(map[], kwargs, o), a) != kwargs[a]
  }

  /** The pairs of arguments of which the first sets the second as well. */
  predicate Contend(k: Attr, a: Attr) {
    || (k == TenantId && a == ProjectId) || (k == TenantName && a == ProjectName)
    || (k == DomainName && (a == UserDomainName || a == ProjectDomainName))
  }

  lemma ContendersOverwrite(kwargs: Kwargs, k: Attr, a: Attr)
    requires Contend(k, a) && !Same(kwargs, k, a)
    ensures Overwritten(kwargs, a)
  {
    LastOneStands(kwargs, k, a);
    assert IsOrder(OrderEndingIn(kwargs.Keys, k), kwargs.Keys);
  }

  /** a is given as None, b is not: with b last, a is set after all. */
  lemma NoneIsOverwritten(kwargs: Kwargs, a: Attr, b: Attr)
    requires (a, b) in {(UserDomainId, ProjectDomainId), (ProjectDomainId, UserDomainId),
                        (UserDomainName, ProjectDomainName), (ProjectDomainName, UserDomainName)}
    requires a in kwargs && b in kwargs && kwargs[a] == None && kwargs[b].Some?
    requires DomainName in kwargs ==> a != UserDomainName && a != ProjectDomainName
    ensures Overwritten(kwargs, a)
  {
    LastOneStands(kwargs, b, a);
    var order := OrderEndingIn(kwargs.Keys, b);
    var before := order[..|order| - 1];
    assert b !in before;
    NoneStaysUnset(kwargs, before, a, b);
    assert Get(Apply(map[], kwargs, order), a) != kwargs[a];
  }

  lemma InconsistentOverwrites(kwargs: Kwargs) returns (a: Attr)
    requires !Consistent(kwargs)
    ensures Overwritten(kwargs, a)
  {
    if k, b :| Contend(k, b) && !Same(kwargs, k, b) {
      ContendersOverwrite(kwargs, k, b);
      a := b;
    } else {
      var b;
      if !BothOrNeither(kwargs, UserDomainId, ProjectDomainId) {
        a, b := UserDomainId, ProjectDomainId;
      } else {
        a, b := UserDomainName, ProjectDomainName;
      }
      assert DomainName in kwargs ==> Same(kwargs, DomainName, UserDomainName) && Same(kwargs, DomainName, ProjectDomainName);
      if kwargs[a].Some? {
        a, b := b, a;
      }
      NoneIsOverwritten(kwargs, a, b);
    }
  }

  /** The state after construction is the same for every iteration order of the
      keyword dictionary, None values included, if and only if no two arguments
      contend for an attribute; and exactly then each one reads as it was given. */
  lemma OrderIndependenceExactly(kwargs: Kwargs)
    ensures Consistent(kwargs) <==> !OrderMatters(kwargs)
    ensures Consistent(kwargs) <==> forall a :: !Overwritten(kwargs, a)
  {
    if Consistent(kwargs) {
      forall o | IsOrder(o, kwargs.Keys) ensures IsFinal(Apply(map[], kwargs, o), kwargs) {
        AppliedIsFinal(kwargs, o);
        assert Restrict(kwargs, o) == kwargs;
      }
      forall o1, o2 | IsOrder(o1, kwargs.Keys) && IsOrder(o2, kwargs.Keys)
        ensures Apply(map[], kwargs, o1) == Apply(map[], kwargs, o2)
      {
        SameReadsSameState(Apply(map[], kwargs, o1), Apply(map[], kwargs, o2));
      }
      forall a | a in kwargs ensures !Overwritten(kwargs, a) {
        FinalReadsBack(kwargs, a);
      }
    } else {
      var a := InconsistentOverwrites(kwargs);
      LastOneStands(kwargs, a, a);
      assert IsOrder(OrderEndingIn(kwargs.Keys, a), kwargs.Keys);
    }
  }

  lemma FinalReadsBack(kwargs: Kwargs, a: Attr)
    requires Consistent(kwargs) && a in kwargs
    ensures Final(kwargs, a) == kwargs[a]
  {
  }

  // ----- aliases -----

  function IsSet(s: State, k: Attr): bool {
    Get(s, k).Some?
  }

  ghost predicate Aliased(s: State) {
    && Get(s, TenantId) == Get(s, ProjectId) && Get(s, TenantName) == Get(s, ProjectName)
    && (IsSet(s, UserDomainId) <==> IsSet(s, ProjectDomainId))
    && (IsSet(s, UserDomainName) <==> IsSet(s, ProjectDomainName))
  }

  /** An assignment keeps the aliases in step if and only if it does not unset one of
      the four domain attributes while it is set. */
  lemma AliasesKeptExactly(s: State, k: Attr, v: Option<string>)
    requires Aliased(s)
    ensures Aliased(Assign(s, k, v)) <==>
            v.Some? || k !in {UserDomainId, ProjectDomainId, UserDomainName, ProjectDomainName} || !IsSet(s, k)
  {
    AssignReads(s, k, v, TenantId);
    AssignReads(s, k, v, ProjectId);
    AssignReads(s, k, v, TenantName);
    AssignReads(s, k, v, ProjectName);
    AssignReads(s, k, v, UserDomainId);
    AssignReads(s, k, v, ProjectDomainId);
    AssignReads(s, k, v, UserDomainName);
    AssignReads(s, k, v, ProjectDomainName);
    ReadsAliased(s, k, v);
  }

  lemma ReadsAliased(s: State, k: Attr, v: Option<string>)
    requires Aliased(s)
    ensures Reads(s, k, v, TenantId) == Reads(s, k, v, ProjectId)
    ensures Reads(s, k, v, TenantName) == Reads(s, k, v, ProjectName)
    ensures (Reads(s, k, v, UserDomainId).Some? <==> Reads(s, k, v, ProjectDomainId).Some?)
            <==> v.Some? || k !in {UserDomainId, ProjectDomainId} || !IsSet(s, k)
    ensures (Reads(s, k, v, UserDomainName).Some? <==> Reads(s, k, v, ProjectDomainName).Some?)
            <==> v.Some? || k !in {UserDomainName, ProjectDomainName} || !IsSet(s, k)
  {
    MirrorsAgree(s, k, v, TenantId, ProjectId);
    MirrorsAgree(s, k, v, TenantName, ProjectName);
    TwinsAgree(s, k, v, UserDomainId, ProjectDomainId);
    TwinsAgree(s, k, v, UserDomainName, ProjectDomainName);
  }

  lemma MirrorsAgree(s: State, k: Attr, v: Option<string>, a: Attr, b: Attr)
    requires Mirror(a) == Some(b) && Mirror(b) == Some(a) && Get(s, a) == Get(s, b)
    ensures Reads(s, k, v, a) == Reads(s, k, v, b)
  {
  }

  lemma TwinsAgree(s: State, k: Attr, v: Option<string>, a: Attr, b: Attr)
    requires Twin(a) == Some(b) && Twin(b) == Some(a) && (IsSet(s, a) <==> IsSet(s, b))
    ensures (Reads(s, k, v, a).Some? <==> Reads(s, k, v, b).Some?) <==> v.Some? || (k != a && k != b) || !IsSet(s, k)
  {
  }

  lemma {:induction false} AliasesKeptInRuns(s: State, kwargs: Kwargs, order: seq<Attr>)
    requires Aliased(s) && (forall k :: k in order ==> k in kwargs && kwargs[k].Some?)
    ensures Aliased(Apply(s, kwargs, order))
    decreases |order|
  {
    if order != [] {
      var n := |order| - 1;
      AliasesKeptInRuns(s, kwargs, order[..n]);
      AliasesKeptExactly(Apply(s, kwargs, order[..n]), order[n], kwargs[order[n]]);
    }
  }

  // ----- filling from a token -----

  datatype Scope = Scope(id: string, name: string, domainId: string, domainName: string)

  datatype Domain = Domain(id: string, name: string)

  datatype Token = Token(project: Option<Scope>, domain: Option<Domain>, user: Scope)

  function SetIfUnset(s: State, k: Attr, v: string): State {
    if IsSet(s, k) then s else Assign(s, k, Some(v))
  }

  function FillProject(s: State, p: Scope): State {
    SetIfUnset(SetIfUnset(SetIfUnset(SetIfUnset(s, ProjectName, p.name), ProjectId, p.id),
                          ProjectDomainId, p.domainId), ProjectDomainName, p.domainName)
  }

  function FillDomain(s: State, d: Domain): State {
    SetIfUnset(SetIfUnset(s, DomainId, d.id), DomainName, d.name)
  }

  function FillUser(s: State, u: Scope): State {
    SetIfUnset(SetIfUnset(SetIfUnset(SetIfUnset(s, Username, u.name), UserId, u.id),
                          UserDomainId, u.domainId), UserDomainName, u.domainName)
  }

  function FillScope(s: State, t: Token): State {
    var s1 := if t.project.Some? then FillProject(s, t.project.value) else s;
    if t.domain.Some? then FillDomain(s1, t.domain.value) else s1
  }

  function Fill(s: State, t: Token): State {
    FillUser(FillScope(s, t), t.user)
  }

  predicate Kept(s: State, t: State, a: Attr) {
    IsSet(s, a) ==> Get(t, a) == Get(s, a)
  }

  /** Nothing set is changed. */
  ghost predicate Extends(t: State, s: State) {
    forall a :: Kept(s, t, a)
  }

  /** A new domain in the token takes over the user's and project's domain names. */
  predicate Renames(s: State, t: Token, a: Attr) {
    t.domain.Some? && !IsSet(s, DomainName) && TakesDomainName(a)
  }

  predicate TakesDomainName(a: Attr) {
    a == DomainName || a == UserDomainName || a == ProjectDomainName
  }

  /** Both domains come from the project if there is one, even the user's. */
  function DomainSource(t: Token): Scope {
    if t.project.Some? then t.project.value else t.user
  }

  /** What a token offers for an attribute. */
  function Offer(t: Token, a: Attr): Option<string> {
    match a
    case Username => Some(t.user.name)
    case UserId => Some(t.user.id)
    case ProjectName => if t.project.Some? then Some(t.project.value.name) else None
    case TenantName => if t.project.Some? then Some(t.project.value.name) else None
    case ProjectId => if t.project.Some? then Some(t.project.value.id) else None
    case TenantId => if t.project.Some? then Some(t.project.value.id) else None
    case ProjectDomainId => Some(DomainSource(t).domainId)
    case UserDomainId => Some(DomainSource(t).domainId)
    case ProjectDomainName => Some(DomainSource(t).domainName)
    case UserDomainName => Some(DomainSource(t).domainName)
    case DomainId => if t.domain.Some? then Some(t.domain.value.id) else None
    case DomainName => if t.domain.Some? then Some(t.domain.value.name) else None
    case Password => None
  }

  function Either(v: Option<string>, w: Option<string>): Option<string> {
    if v.Some? then v else w
  }

  // ----- four assignments in a row -----

  predicate Related(k: Attr, a: Attr) {
    a == k || Mirror(k) == Some(a) || Twin(k) == Some(a)
  }

  lemma SetReads(s: State, k: Attr, v: string, a: Attr)
    requires Aliased(s) && k != DomainName
    ensures Get(SetIfUnset(s, k, v), a) == if Related(k, a) then Either(Get(s, a), Some(v)) else Get(s, a)
  {
    AssignReads(s, k, Some(v), a);
    if Related(k, a) {
      RelatedAreSetAlike(s, k, a);
    }
  }

  lemma RelatedAreSetAlike(s: State, k: Attr, a: Attr)
    requires Aliased(s) && Related(k, a)
    ensures IsSet(s, k) <==> IsSet(s, a)
  {
  }

  lemma SetKeepsAliases(s: State, k: Attr, v: string)
    requires Aliased(s)
    ensures Aliased(SetIfUnset(s, k, v))
  {
    AliasesKeptExactly(s, k, Some(v));
  }

  lemma TwoRead(s: State, k1: Attr, k2: Attr, v1: string, v2: string, a: Attr)
    requires Aliased(s) && k1 != DomainName && k2 != DomainName && !(Related(k1, a) && Related(k2, a))
    ensures Get(SetIfUnset(SetIfUnset(s, k1, v1), k2, v2), a)
            == if Related(k1, a) then Either(Get(s, a), Some(v1))
               else if Related(k2, a) then Either(Get(s, a), Some(v2)) else Get(s, a)
    ensures Aliased(SetIfUnset(SetIfUnset(s, k1, v1), k2, v2))
  {
    SetReads(s, k1, v1, a);
    SetKeepsAliases(s, k1, v1);
    SetReads(SetIfUnset(s, k1, v1), k2, v2, a);
    SetKeepsAliases(SetIfUnset(s, k1, v1), k2, v2);
  }

  /** What four assignments in a row offer for an attribute. */
  function Offers(k1: Attr, v1: string, k2: Attr, v2: string, k3: Attr, v3: string, k4: Attr, v4: string, a: Attr)
    : Option<string>
  {
    if Related(k1, a) then Some(v1) else if Related(k2, a) then Some(v2)
    else if Related(k3, a) then Some(v3) else if Related(k4, a) then Some(v4) else None
  }

  function ProjectOffers(p: Scope, a: Attr): Option<string> {
    Offers(ProjectName, p.name, ProjectId, p.id, ProjectDomainId, p.domainId, ProjectDomainName, p.domainName, a)
  }

  function UserOffers(u: Scope, a: Attr): Option<string> {
    Offers(Username, u.name, UserId, u.id, UserDomainId, u.domainId, UserDomainName, u.domainName, a)
  }

  /** No attribute is related to two of the keys. */
  predicate Apart(k1: Attr, k2: Attr, k3: Attr, k4: Attr, a: Attr) {
    && !(Related(k1, a) && Related(k2, a)) && !(Related(k3, a) && Related(k4, a))
    && !((Related(k1, a) || Related(k2, a)) && (Related(k3, a) || Related(k4, a)))
  }

  lemma FourRead(s: State, k1: Attr, v1: string, k2: Attr, v2: string, k3: Attr, v3: string, k4: Attr, v4: string, a: Attr)
    requires Aliased(s) && k1 != DomainName && k2 != DomainName && k3 != DomainName && k4 != DomainName
    requires Apart(k1, k2, k3, k4, a)
    ensures var f := SetIfUnset(SetIfUnset(SetIfUnset(SetIfUnset(s, k1, v1), k2, v2), k3, v3), k4, v4);
            Aliased(f) && Get(f, a) == Either(Get(s, a), Offers(k1, v1, k2, v2, k3, v3, k4, v4, a))
  {
    TwoRead(s, k1, k2, v1, v2, a);
    TwoRead(SetIfUnset(SetIfUnset(s, k1, v1), k2, v2), k3, k4, v3, v4, a);
  }

  lemma ProjectKeysAreApart(a: Attr)
    ensures Apart(ProjectName, ProjectId, ProjectDomainId, ProjectDomainName, a)
  {
  }

  lemma UserKeysAreApart(a: Attr)
    ensures Apart(Username, UserId, UserDomainId, UserDomainName, a)
  {
  }

  lemma ProjectReads(s: State, p: Scope, a: Attr)
    requires Aliased(s)
    ensures Aliased(FillProject(s, p)) && Get(FillProject(s, p), a) == Either(Get(s, a), ProjectOffers(p, a))
  {
    ProjectKeysAreApart(a);
    FourRead(s, ProjectName, p.name, ProjectId, p.id, ProjectDomainId, p.domainId, ProjectDomainName, p.domainName, a);
  }

  lemma UserReads(s: State, u: Scope, a: Attr)
    requires Aliased(s)
    ensures Aliased(FillUser(s, u)) && Get(FillUser(s, u), a) == Either(Get(s, a), UserOffers(u, a))
  {
    UserKeysAreApart(a);
    FourRead(s, Username, u.name, UserId, u.id, UserDomainId, u.domainId, UserDomainName, u.domainName, a);
  }

  function DomainOffers(d: Domain, a: Attr): Option<string> {
    if a == DomainId then Some(d.id) else if a == DomainName then Some(d.name) else None
  }

  lemma DomainReads(s: State, d: Domain, a: Attr)
    requires Aliased(s)
    ensures Aliased(FillDomain(s, d))
    ensures Get(FillDomain(s, d), a)
            == if !IsSet(s, DomainName) && TakesDomainName(a) then Some(d.name) else Either(Get(s, a), DomainOffers(d, a))
  {
    var s1 := SetIfUnset(s, DomainId, d.id);
    SetKeepsAliases(s, DomainId, d.id);
    SetKeepsAliases(s1, DomainName, d.name);
    SetReads(s, DomainId, d.id, a);
    SetReads(s, DomainId, d.id, DomainName);
    AssignReads(s1, DomainName, Some(d.name), a);
  }

  lemma ProjectOffersAre(p: Scope, a: Attr)
    ensures ProjectOffers(p, a) == match a
      case ProjectName => Some(p.name)
      case TenantName => Some(p.name)
      case ProjectId => Some(p.id)
      case TenantId => Some(p.id)
      case ProjectDomainId => Some(p.domainId)
      case UserDomainId => Some(p.domainId)
      case ProjectDomainName => Some(p.domainName)
      case UserDomainName => Some(p.domainName)
      case _ => None
  {
  }

  lemma UserOffersAre(u: Scope, a: Attr)
    ensures UserOffers(u, a) == match a
      case Username => Some(u.name)
      case UserId => Some(u.id)
      case ProjectDomainId => Some(u.domainId)
      case UserDomainId => Some(u.domainId)
      case ProjectDomainName => Some(u.domainName)
      case UserDomainName => Some(u.domainName)
      case _ => None
  {
  }

  function OfProject(t: Token, a: Attr): Option<string> {
    if t.project.Some? then ProjectOffers(t.project.value, a) else None
  }

  function OfDomain(t: Token, a: Attr): Option<string> {
    if t.domain.Some? then DomainOffers(t.domain.value, a) else None
  }

  lemma OffersMeet(t: Token, a: Attr)
    ensures Offer(t, a) == Either(Either(OfProject(t, a), OfDomain(t, a)), UserOffers(t.user, a))
  {
    if t.project.Some? {
      ProjectOffersAre(t.project.value, a);
    }
    UserOffersAre(t.user, a);
  }

  lemma ScopeReads(s: State, t: Token, a: Attr)
    requires Aliased(s)
    ensures Aliased(FillScope(s, t))
    ensures Get(FillScope(s, t), a) == if Renames(s, t, a) then Some(t.domain.value.name)
                                       else Either(Get(s, a), Either(OfProject(t, a), OfDomain(t, a)))
  {
    var s1 := if t.project.Some? then FillProject(s, t.project.value) else s;
    if t.project.Some? {
      ProjectReads(s, t.project.value, a);
      ProjectReads(s, t.project.value, DomainName);
      ProjectOffersAre(t.project.value, DomainName);
    }
    if t.domain.Some? {
      DomainReads(s1, t.domain.value, a);
    }
  }

  /** A fill gives every attribute that is not set exactly what the token offers for
      it, and changes no other, except that a new domain name replaces the user's and
      project's. */
  lemma FillIsExact(s: State, t: Token, a: Attr)
    requires Aliased(s)
    ensures Get(Fill(s, t), a)
            == if Renames(s, t, a) then Some(t.domain.value.name) else Either(Get(s, a), Offer(t, a))
    ensures Aliased(Fill(s, t))
  {
    ScopeReads(s, t, a);
    UserReads(FillScope(s, t), t.user, a);
    OffersMeet(t, a);
  }

  // ----- what a fill changes and what it leaves -----

  /** A domain in the token overwrites the user's and project's domain names. */
  predicate BringsNoConflict(s: State, domain: Option<Domain>) {
    domain.Some? && !IsSet(s, DomainName) ==>
      && (IsSet(s, UserDomainName) ==> Get(s, UserDomainName) == Some(domain.value.name))
      && (IsSet(s, ProjectDomainName) ==> Get(s, ProjectDomainName) == Some(domain.value.name))
  }

  /** A fill keeps the aliases in step, and what was set if and only if the token
      brings no new domain name that differs from the user's or project's. */
  lemma FillIsAdditiveExactly(s: State, t: Token)
    requires Aliased(s)
    ensures Aliased(Fill(s, t))
    ensures Extends(Fill(s, t), s) <==> BringsNoConflict(s, t.domain)
  {
    forall a ensures Get(Fill(s, t), a)
                     == if Renames(s, t, a) then Some(t.domain.value.name) else Either(Get(s, a), Offer(t, a))
    {
      FillIsExact(s, t, a);
    }
    FillIsExact(s, t, Password);
    assert Extends(Fill(s, t), s) ==> Kept(s, Fill(s, t), UserDomainName) && Kept(s, Fill(s, t), ProjectDomainName);
  }

  /** It sets every field of the user, and of the project or domain the token is
      scoped to ... */
  lemma FillSetsAll(s: State, t: Token)
    requires Aliased(s)
    ensures var f := Fill(s, t);
            && IsSet(f, Username) && IsSet(f, UserId) && IsSet(f, UserDomainId) && IsSet(f, UserDomainName)
            && IsSet(f, ProjectDomainId) && IsSet(f, ProjectDomainName)
            && (t.project.Some? ==> IsSet(f, ProjectName) && IsSet(f, ProjectId) && IsSet(f, TenantName) && IsSet(f, TenantId))
            && (t.domain.Some? ==> IsSet(f, DomainId) && IsSet(f, DomainName))
  {
    forall a | Offer(t, a).Some? ensures IsSet(Fill(s, t), a) {
      FillIsExact(s, t, a);
    }
    OffersAll(t);
  }

  lemma OffersAll(t: Token)
    ensures Offer(t, Username).Some? && Offer(t, UserId).Some? && Offer(t, UserDomainId).Some? && Offer(t, UserDomainName).Some?
    ensures Offer(t, ProjectDomainId).Some? && Offer(t, ProjectDomainName).Some?
    ensures t.project.Some? ==> Offer(t, ProjectName).Some? && Offer(t, ProjectId).Some?
                                && Offer(t, TenantName).Some? && Offer(t, TenantId).Some?
    ensures t.domain.Some? ==> Offer(t, DomainId).Some? && Offer(t, DomainName).Some?
  {
  }

  /** ... so filling again from the same token changes nothing. */
  lemma FillIsIdempotent(s: State, t: Token)
    requires Aliased(s)
    ensures Fill(Fill(s, t), t) == Fill(s, t)
  {
    FillSetsAll(s, t);
    var f := Fill(s, t);
    assert t.project.Some? ==> FillProject(f, t.project.value) == f;
    assert t.domain.Some? ==> FillDomain(f, t.domain.value) == f;
  }

  // ----- validity -----

  predicate NonEmpty(v: Option<string>) {
    v.Some? && v.value != ""
  }

  predicate IsValid(s: State) {
    var validUserDomain := IsSet(s, UserDomainId) || IsSet(s, UserDomainName);
    var validProjectDomain := IsSet(s, ProjectDomainId) || IsSet(s, ProjectDomainName);
    var validUser := IsSet(s, UserId) || (IsSet(s, Username) && validUserDomain);
    var validProjectScope :=
      || (!IsSet(s, ProjectName) && !IsSet(s, ProjectId))
      || IsSet(s, ProjectId)
      || (IsSet(s, ProjectName) && validProjectDomain);
    var validDomainScope :=
      || (!IsSet(s, DomainId) && !IsSet(s, DomainName))
      || NonEmpty(Get(s, DomainId)) || NonEmpty(Get(s, DomainName));
    IsSet(s, Password) && validUser && validProjectScope && validDomainScope
  }

  /** The documented ways to name a user, and a project. */
  const USER_FORMS: set<set<Attr>> := {{UserId}, {Username, UserDomainId}, {Username, UserDomainName}}
  const PROJECT_FORMS: set<set<Attr>> := {{ProjectId}, {ProjectName, ProjectDomainId}, {ProjectName, ProjectDomainName}}

  predicate HasForm(s: State, forms: set<set<Attr>>) {
    exists form :: form in forms && form <= s.Keys
  }

  /** Valid credentials are those the documentation lists: a password, a user in one of
      the three ways, no project or one in one of three ways, and no domain or one with
      an id or a name. */
  lemma ValidAsDocumented(s: State)
    ensures IsValid(s) <==>
            && Password in s && HasForm(s, USER_FORMS)
            && (HasForm(s, PROJECT_FORMS) || (ProjectId !in s && ProjectName !in s))
            && ((DomainId !in s && DomainName !in s)
                || (DomainId in s && s[DomainId] != "") || (DomainName in s && s[DomainName] != ""))
  {
    assert {UserId} in USER_FORMS && {Username, UserDomainId} in USER_FORMS && {Username, UserDomainName} in USER_FORMS;
    assert {ProjectId} in PROJECT_FORMS && {ProjectName, ProjectDomainId} in PROJECT_FORMS;
    assert {ProjectName, ProjectDomainName} in PROJECT_FORMS;
    assert UserId in s ==> {UserId} <= s.Keys;
    assert Username in s && UserDomainId in s ==> {Username, UserDomainId} <= s.Keys;
    assert Username in s && UserDomainName in s ==> {Username, UserDomainName} <= s.Keys;
    assert ProjectId in s ==> {ProjectId} <= s.Keys;
    assert ProjectName in s && ProjectDomainId in s ==> {ProjectName, ProjectDomainId} <= s.Keys;
    assert ProjectName in s && ProjectDomainName in s ==> {ProjectName, ProjectDomainName} <= s.Keys;
  }

  /** What the domain id and name come to be says whether they are valid. */
  predicate ScopeFits(s: State, domain: Option<Domain>) {
    var id := Either(Get(s, DomainId), if domain.Some? then Some(domain.value.id) else None);
    var name := Either(Get(s, DomainName), if domain.Some? then Some(domain.value.name) else None);
    (id.None? && name.None?) || NonEmpty(id) || NonEmpty(name)
  }

  /** Filled credentials are valid if and only if there is a password and the domain
      scope is not made of empty texts, whatever they lacked before. Valid ones stay
      valid unless they had no domain and the token brings a nameless one. */
  lemma FilledIsValidExactly(s: State, t: Token)
    requires Aliased(s)
    ensures IsValid(Fill(s, t)) <==> IsSet(s, Password) && ScopeFits(s, t.domain)
    ensures IsValid(s) ==>
            (IsValid(Fill(s, t)) <==>
             (t.domain.Some? && !IsSet(s, DomainId) && !IsSet(s, DomainName)
              ==> t.domain.value.id != "" || t.domain.value.name != ""))
  {
    FillSetsAll(s, t);
    FillIsExact(s, t, Password);
    FillIsExact(s, t, DomainId);
    FillIsExact(s, t, DomainName);
  }

  // ----- many fills, of what was given as arguments -----

  function Refill(s: State, ts: seq<Token>): State
    decreases |ts|
  {
    if ts == [] then s else Refill(Fill(s, ts[0]), ts[1..])
  }

  function FirstDomain(ts: seq<Token>): Option<Domain> {
    if ts == [] then None else if ts[0].domain.Some? then ts[0].domain else FirstDomain(ts[1..])
  }

  /** What a fill makes of an attribute that is set. */
  lemma FillKeeps(s: State, t: Token, a: Attr)
    requires Aliased(s) && IsSet(s, a)
    ensures var f := Fill(s, t);
            && Aliased(f) && IsSet(f, a) && (IsSet(f, DomainName) <==> IsSet(s, DomainName) || t.domain.Some?)
            && Get(f, a) == if Renames(s, t, a) then Some(t.domain.value.name) else Get(s, a)
  {
    FillIsExact(s, t, a);
    FillIsExact(s, t, DomainName);
  }

  /** Only the first domain that comes along changes anything that was set. */
  lemma {:induction false} RefillKeeps(s: State, ts: seq<Token>, a: Attr)
    requires Aliased(s) && IsSet(s, a)
    ensures Get(Refill(s, ts), a)
            == if FirstDomain(ts).Some? && !IsSet(s, DomainName) && a in {UserDomainName, ProjectDomainName}
               then Some(FirstDomain(ts).value.name) else Get(s, a)
    decreases |ts|
  {
    if ts != [] {
      FillKeeps(s, ts[0], a);
      RefillKeeps(Fill(s, ts[0]), ts[1..], a);
    }
  }

  /** Arguments none of which is None. */
  function Arguments(given: map<Attr, string>): (kwargs: Kwargs)
    ensures forall k :: k in kwargs ==> kwargs[k].Some?
  {
    map k | k in given :: Some(given[k])
  }

  ghost predicate ReadsBack(s: State, given: map<Attr, string>) {
    forall k :: k in given ==> Get(s, k) == Some(given[k])
  }

  /** Tokens for one scope. */
  ghost predicate ScopedTo(ts: seq<Token>, domain: Option<Domain>) {
    forall t :: t in ts ==> t.domain == domain
  }

  /** The scope does not take over a domain name that was given. */
  predicate KeepsNames(given: map<Attr, string>, domain: Option<Domain>) {
    domain.Some? && DomainName !in given ==>
      && (UserDomainName in given ==> given[UserDomainName] == domain.value.name)
      && (ProjectDomainName in given ==> given[ProjectDomainName] == domain.value.name)
  }

  lemma FirstOfScope(ts: seq<Token>, domain: Option<Domain>)
    requires ScopedTo(ts, domain)
    ensures FirstDomain(ts) == if ts == [] then None else domain
  {
  }

  lemma AppliedIsAliased(given: map<Attr, string>, order: seq<Attr>)
    requires forall k :: k in order ==> k in given
    ensures Aliased(Apply(map[], Arguments(given), order))
  {
    AliasesKeptInRuns(map[], Arguments(given), order);
  }

  lemma ConsistentReads(given: map<Attr, string>, order: seq<Attr>, a: Attr)
    requires Consistent(Arguments(given)) && IsOrder(order, given.Keys)
    ensures a in given ==> Get(Apply(map[], Arguments(given), order), a) == Some(given[a])
    ensures a == DomainName && a !in given ==> !IsSet(Apply(map[], Arguments(given), order), a)
  {
    var kwargs := Arguments(given);
    AppliedIsFinal(kwargs, order);
    assert Restrict(kwargs, order) == kwargs;
    assert Get(Apply(map[], kwargs, order), a) == Final(kwargs, a);
    if a in given {
      FinalReadsBack(kwargs, a);
    }
  }

  /** However often they are filled since, what was given still reads as given. */
  lemma GivenIsKept(given: map<Attr, string>, domain: Option<Domain>, order: seq<Attr>, ts: seq<Token>)
    requires Consistent(Arguments(given)) && KeepsNames(given, domain)
    requires IsOrder(order, given.Keys) && ScopedTo(ts, domain)
    ensures ReadsBack(Refill(Apply(map[], Arguments(given), order), ts), given)
  {
    var s := Apply(map[], Arguments(given), order);
    AppliedIsAliased(given, order);
    FirstOfScope(ts, domain);
    ConsistentReads(given, order, DomainName);
    forall k | k in given ensures Get(Refill(s, ts), k) == Some(given[k]) {
      ConsistentReads(given, order, k);
      RefillKeeps(s, ts, k);
    }
  }

  /** Some order, and tokens of the scope, after which something reads otherwise. */
  ghost predicate Strays(given: map<Attr, string>, domain: Option<Domain>) {
    exists order, ts :: IsOrder(order, given.Keys) && ts != [] && ScopedTo(ts, domain)
                        && !ReadsBack(Refill(Apply(map[], Arguments(given), order), ts), given)
  }

  function SomeToken(domain: Option<Domain>): Token {
    Token(None, domain, Scope("", "", "", ""))
  }

  lemma StraysBy(given: map<Attr, string>, domain: Option<Domain>, order: seq<Attr>, a: Attr)
    requires IsOrder(order, given.Keys) && a in given
    requires var s := Apply(map[], Arguments(given), order);
             && Aliased(s) && IsSet(s, a)
             && if domain.Some? && !IsSet(s, DomainName) && a in {UserDomainName, ProjectDomainName}
                then given[a] != domain.value.name else Get(s, a) != Some(given[a])
    ensures Strays(given, domain)
  {
    var s, ts := Apply(map[], Arguments(given), order), [SomeToken(domain)];
    assert ScopedTo(ts, domain);
    FirstOfScope(ts, domain);
    RefillKeeps(s, ts, a);
    assert !ReadsBack(Refill(s, ts), given);
  }

  lemma ContenderReads(kwargs: Kwargs, k: Attr, a: Attr)
    requires Contend(k, a) && k in kwargs
    ensures var s := Apply(map[], kwargs, OrderEndingIn(kwargs.Keys, k));
            Get(s, a) == kwargs[k] && Get(s, k) == kwargs[k]
  {
    var order := OrderEndingIn(kwargs.Keys, k);
    LastOneStands(kwargs, k, a);
    LastOneStands(kwargs, k, k);
    ContenderTakes(Apply(map[], kwargs, order[..|order| - 1]), k, kwargs[k], a);
  }

  lemma ContenderTakes(s: State, k: Attr, v: Option<string>, a: Attr)
    requires Contend(k, a)
    ensures Reads(s, k, v, a) == v && Reads(s, k, v, k) == v
  {
  }

  lemma ContendersStray(given: map<Attr, string>, domain: Option<Domain>, k: Attr, a: Attr)
    requires Contend(k, a) && !Same(Arguments(given), k, a)
    ensures Strays(given, domain)
  {
    var kwargs := Arguments(given);
    assert kwargs.Keys == given.Keys;
    ContenderReads(kwargs, k, a);
    AppliedIsAliased(given, OrderEndingIn(kwargs.Keys, k));
    StraysBy(given, domain, OrderEndingIn(kwargs.Keys, k), a);
  }

  lemma TakenNamesStray(given: map<Attr, string>, domain: Option<Domain>)
    requires Consistent(Arguments(given)) && !KeepsNames(given, domain)
    ensures Strays(given, domain)
  {
    var a := if UserDomainName in given && given[UserDomainName] != domain.value.name then UserDomainName else ProjectDomainName;
    var order := SomeOrder(given.Keys);
    ConsistentReads(given, order, DomainName);
    ConsistentReads(given, order, a);
    AppliedIsAliased(given, order);
    StraysBy(given, domain, order, a);
  }

  /** In every order, and through any number of fills from tokens of that scope,
      credentials read as they were given if and only if no two arguments contend and
      the scope takes over no domain name. */
  lemma GivenIsKeptExactly(given: map<Attr, string>, domain: Option<Domain>)
    ensures Consistent(Arguments(given)) && KeepsNames(given, domain) <==> !Strays(given, domain)
  {
    var kwargs := Arguments(given);
    if Consistent(kwargs) && KeepsNames(given, domain) {
      forall order, ts | IsOrder(order, given.Keys) && ScopedTo(ts, domain)
        ensures ReadsBack(Refill(Apply(map[], kwargs, order), ts), given)
      {
        GivenIsKept(given, domain, order, ts);
      }
    } else if k, a :| Contend(k, a) && !Same(kwargs, k, a) {
      ContendersStray(given, domain, k, a);
    } else {
      assert forall k, a :: Contend(k, a) ==> Same(kwargs, k, a);
      assert Contend(TenantId, ProjectId) && Contend(TenantName, ProjectName);
      assert Contend(DomainName, UserDomainName) && Contend(DomainName, ProjectDomainName);
      TakenNamesStray(given, domain);
    }
  }

  // ----- whether arguments make valid credentials -----

  predicate Among(k: Option<Attr>, ks: set<Attr>) {
    k.Some? && k.value in ks
  }

  /** Arguments of these names, none of them None, set the attribute. */
  predicate SetBy(ks: set<Attr>, a: Attr) {
    || a in ks || Among(Mirror(a), ks) || Among(Twin(a), ks)
    || (DomainName in ks && (a == UserDomainName || a == ProjectDomainName))
  }

  lemma SetByOneMore(s: State, ks: set<Attr>, k: Attr, v: string, a: Attr)
    requires IsSet(s, a) <==> SetBy(ks, a)
    ensures IsSet(Assign(s, k, Some(v)), a) <==> SetBy(ks + {k}, a)
  {
    AssignReads(s, k, Some(v), a);
    SetByJoins(ks, k, a);
  }

  lemma SetByJoins(ks: set<Attr>, k: Attr, a: Attr)
    ensures SetBy(ks + {k}, a) <==> SetBy(ks, a) || Touches(k, a)
  {
    PairsAreSymmetric(k, a);
  }

  lemma PairsAreSymmetric(k: Attr, a: Attr)
    ensures Mirror(k) == Some(a) <==> Mirror(a) == Some(k)
    ensures Twin(k) == Some(a) <==> Twin(a) == Some(k)
  {
  }

  lemma {:induction false} AppliedIsSet(given: map<Attr, string>, order: seq<Attr>, a: Attr)
    requires forall k :: k in order ==> k in given
    ensures IsSet(Apply(map[], Arguments(given), order), a) <==> SetBy((set k | k in order), a)
    decreases |order|
  {
    if order != [] {
      var n := |order| - 1;
      AppliedIsSet(given, order[..n], a);
      SetByOneMore(Apply(map[], Arguments(given), order[..n]), (set k | k in order[..n]), order[n], given[order[n]], a);
      assert (set k | k in order[..n]) + {order[n]} == set k | k in order;
    }
  }

  /** Assigning k may change a. */
  predicate Touches(k: Attr, a: Attr) {
    Related(k, a) || (k == DomainName && (a == UserDomainName || a == ProjectDomainName))
  }

  /** An argument that no other one touches. */
  lemma {:induction false} AloneAsGiven(given: map<Attr, string>, order: seq<Attr>, a: Attr)
    requires (forall k :: k in order ==> k in given && (k == a || !Touches(k, a))) && a in order
    ensures Get(Apply(map[], Arguments(given), order), a) == Some(given[a])
    decreases |order|
  {
    var n := |order| - 1;
    Untouched(Apply(map[], Arguments(given), order[..n]), order[n], Some(given[order[n]]), a);
    if order[n] != a {
      AloneAsGiven(given, order[..n], a);
    }
  }

  lemma Untouched(s: State, k: Attr, v: Option<string>, a: Attr)
    requires k == a || !Touches(k, a)
    ensures Get(Assign(s, k, v), a) == if k == a then v else Get(s, a)
  {
    AssignReads(s, k, v, a);
  }

  /** Valid user, project and domain scope, told from the arguments alone. */
  predicate MakesValid(given: map<Attr, string>) {
    var inDomain := DomainName in given || UserDomainId in given || UserDomainName in given
                    || ProjectDomainId in given || ProjectDomainName in given;
    && Password in given
    && (UserId in given || (Username in given && inDomain))
    && (ProjectName in given || TenantName in given ==> inDomain || ProjectId in given || TenantId in given)
    && (DomainId in given || DomainName in given ==>
          (DomainId in given && given[DomainId] != "") || (DomainName in given && given[DomainName] != ""))
  }

  /** Whether the constructor's result is valid does not depend on any order either. */
  lemma MakesValidExactly(given: map<Attr, string>, order: seq<Attr>)
    requires IsOrder(order, given.Keys)
    ensures IsValid(Apply(map[], Arguments(given), order)) <==> MakesValid(given)
  {
    AllSet(given, order);
    if DomainId in given {
      AloneAsGiven(given, order, DomainId);
    }
    if DomainName in given {
      AloneAsGiven(given, order, DomainName);
    }
    SetAlike(given, Apply(map[], Arguments(given), order));
  }

  lemma AllSet(given: map<Attr, string>, order: seq<Attr>)
    requires IsOrder(order, given.Keys)
    ensures forall a :: IsSet(Apply(map[], Arguments(given), order), a) <==> SetBy(given.Keys, a)
  {
    assert (set k | k in order) == given.Keys;
    forall a ensures IsSet(Apply(map[], Arguments(given), order), a) <==> SetBy(given.Keys, a) {
      AppliedIsSet(given, order, a);
    }
  }

  lemma SetAlike(given: map<Attr, string>, s: State)
    requires forall a :: IsSet(s, a) <==> SetBy(given.Keys, a)
    requires DomainId in given ==> Get(s, DomainId) == Some(given[DomainId])
    requires DomainName in given ==> Get(s, DomainName) == Some(given[DomainName])
    ensures IsValid(s) <==> MakesValid(given)
  {
    assert IsSet(s, DomainId) <==> DomainId in given;
    assert IsSet(s, DomainName) <==> DomainName in given;
  }

  // ----- version 2 -----

  const V2_ATTRIBUTES: set<Attr> := {Username, Password, TenantName, UserId, TenantId}

  function PlainSet(s: State, k: Attr, v: string): State {
    if k in s then s else s[k := v]
  }

  /** No aliases here; a token without a tenant fills nothing. */
  function FillV2(s: State, t: Token): State {
    if t.project.None? then s
    else PlainSet(PlainSet(PlainSet(PlainSet(s, TenantName, t.project.value.name), TenantId, t.project.value.id),
                           Username, t.user.name), UserId, t.user.id)
  }

  function RefillV2(s: State, ts: seq<Token>): State
    decreases |ts|
  {
    if ts == [] then s else RefillV2(FillV2(s, ts[0]), ts[1..])
  }

  /** It fills the tenant and the user, where they are not set, and nothing else. */
  lemma FillV2IsExact(s: State, t: Token, a: Attr)
    requires t.project.Some?
    ensures Get(FillV2(s, t), a) == Either(Get(s, a),
              match a
              case TenantName => Some(t.project.value.name)
              case TenantId => Some(t.project.value.id)
              case Username => Some(t.user.name)
              case UserId => Some(t.user.id)
              case _ => None)
  {
    var s1 := PlainSet(s, TenantName, t.project.value.name);
    var s2 := PlainSet(s1, TenantId, t.project.value.id);
    var s3 := PlainSet(s2, Username, t.user.name);
    PlainReads(s, TenantName, t.project.value.name, a);
    PlainReads(s1, TenantId, t.project.value.id, a);
    PlainReads(s2, Username, t.user.name, a);
    PlainReads(s3, UserId, t.user.id, a);
  }

  lemma PlainReads(s: State, k: Attr, v: string, a: Attr)
    ensures Get(PlainSet(s, k, v), a) == if a == k then Either(Get(s, a), Some(v)) else Get(s, a)
  {
  }

  lemma {:induction false} RefillV2Keeps(s: State, ts: seq<Token>)
    ensures ReadsBack(RefillV2(s, ts), s)
    decreases |ts|
  {
    if ts != [] {
      var s' := FillV2(s, ts[0]);
      RefillV2Keeps(s', ts[1..]);
      assert forall k :: k in s ==> Get(s', k) == Some(s[k]);
    }
  }

  // ----- the object -----

  class V3Credentials {
    const kwargs: Kwargs
    const order: seq<Attr>  // how the dictionary iterates
    var attrs: State

    constructor (kwargs: Kwargs, order: seq<Attr>)
      requires IsOrder(order, kwargs.Keys)
      ensures this.kwargs == kwargs && this.order == order
      ensures attrs == Apply(map[], kwargs, order)
    {
      this.kwargs, this.order := kwargs, order;
      attrs := map[];
      new;
      ApplyCredentials();
    }

    /** Tenant and project always together. */
    method SetMirror(k: Attr, v: Option<string>)
      modifies this`attrs
      ensures attrs == PutMirror(old(attrs), k, v)
    {
      if k == TenantId {
        attrs := Put(attrs, ProjectId, v);
      } else if k == TenantName {
        attrs := Put(attrs, ProjectName, v);
      }
      if k == ProjectId {
        attrs := Put(attrs, TenantId, v);
      } else if k == ProjectName {
        attrs := Put(attrs, TenantName, v);
      }
    }

    /** Of a pair of domain attributes, the other one only while it is unset. */
    method SetTwin(k: Attr, v: Option<string>)
      modifies this`attrs
      ensures attrs == PutTwin(old(attrs), k, v)
    {
      if k == UserDomainId && !IsSet(attrs, ProjectDomainId) {
        attrs := Put(attrs, ProjectDomainId, v);
      }
      if k == ProjectDomainId && !IsSet(attrs, UserDomainId) {
        attrs := Put(attrs, UserDomainId, v);
      }
      if k == UserDomainName && !IsSet(attrs, ProjectDomainName) {
        attrs := Put(attrs, ProjectDomainName, v);
      }
      if k == ProjectDomainName && !IsSet(attrs, UserDomainName) {
        attrs := Put(attrs, UserDomainName, v);
      }
    }

    /** __setattr__ */
    method SetAttr(k: Attr, v: Option<string>)
      modifies this`attrs
      ensures attrs == Assign(old(attrs), k, v)
    {
      SetMirror(k, v);
      SetTwin(k, v);
      if k == DomainName {
        attrs := Put(attrs, UserDomainName, v);
        attrs := Put(attrs, ProjectDomainName, v);
      }
      attrs := Put(attrs, k, v);
    }

    method ApplyCredentials()
      requires IsOrder(order, kwargs.Keys)
      modifies this`attrs
      ensures attrs == Apply(old(attrs), kwargs, order)
    {
      for i := 0 to |order|
        invariant attrs == Apply(old(attrs), kwargs, order[..i])
      {
        assert order[..i + 1][..i] == order[..i];
        SetAttr(order[i], kwargs[order[i]]);
      }
      assert order[..|order|] == order;
    }

    /** Whatever was assigned or filled in since, the state is again the one right
        after construction. */
    method Reset()
      requires IsOrder(order, kwargs.Keys)
      modifies this`attrs
      ensures attrs == Apply(map[], kwargs, order)
    {
      for i := 0 to |ATTRIBUTES|
        invariant forall j :: 0 <= j < i ==> !IsSet(attrs, ATTRIBUTES[j])
      {
        if IsSet(attrs, ATTRIBUTES[i]) {
          attrs := attrs - {ATTRIBUTES[i]};
        }
      }
      forall a ensures Get(attrs, a) == Get(map[], a) {
        AttributesAreAll(a);
      }
      SameReadsSameState(attrs, map[]);
      ApplyCredentials();
    }

    method SetUnlessSet(k: Attr, v: string)
      modifies this`attrs
      ensures attrs == SetIfUnset(old(attrs), k, v)
    {
      if !IsSet(attrs, k) {
        SetAttr(k, Some(v));
      }
    }

    /** The provider's _fill_credentials. */
    method FillCredentials(t: Token)
      modifies this`attrs
      ensures attrs == Fill(old(attrs), t)
    {
      if t.project.Some? {
        var p := t.project.value;
        SetUnlessSet(ProjectName, p.name);
        SetUnlessSet(ProjectId, p.id);
        SetUnlessSet(ProjectDomainId, p.domainId);
        SetUnlessSet(ProjectDomainName, p.domainName);
      }
      if t.domain.Some? {
        SetUnlessSet(DomainId, t.domain.value.id);
        SetUnlessSet(DomainName, t.domain.value.name);
      }
      SetUnlessSet(Username, t.user.name);
      SetUnlessSet(UserId, t.user.id);
      SetUnlessSet(UserDomainId, t.user.domainId);
      SetUnlessSet(UserDomainName, t.user.domainName);
    }
  }

  lemma AttributesAreAll(a: Attr)
    ensures exists i :: 0 <= i < |ATTRIBUTES| && ATTRIBUTES[i] == a
  {
    assert ATTRIBUTES[0] == DomainId && ATTRIBUTES[1] == DomainName && ATTRIBUTES[2] == Password;
    assert ATTRIBUTES[3] == Username && ATTRIBUTES[4] == ProjectDomainId && ATTRIBUTES[5] == ProjectDomainName;
    assert ATTRIBUTES[6] == ProjectId && ATTRIBUTES[7] == ProjectName && ATTRIBUTES[8] == TenantId;
    assert ATTRIBUTES[9] == TenantName && ATTRIBUTES[10] == UserDomainId && ATTRIBUTES[11] == UserDomainName;
    assert ATTRIBUTES[12] == UserId;
  }
}
