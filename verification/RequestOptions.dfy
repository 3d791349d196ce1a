/** What each option does to any value, and what lists of options compose to. */
module RequestOptions {
  import opened Results
  import opened Sequences
  import opened AttrValues
  import opened CedarPath
  import opened RequestDomain

  // ---- Group memberships ----

  function GlobalGroup(name: string): Group {
    Group(EntityID(name, true), GLOBAL)
  }

  function GlobalGroups(names: seq<string>): seq<Group> {
    seq(|names|, i requires 0 <= i < |names| => GlobalGroup(names[i]))
  }

  lemma NewGlobalGroup(name: string)
    ensures NewGroup(name, []) == if SafeID(name) then Ok(GlobalGroup(name)) else Err(UnsafeID)
  {
  }

  /** Names make global groups, one each and in order, exactly when all of them are safe. */
  lemma {:induction false} NamedGroupsAre(names: seq<string>)
    ensures NamedGroups(names) ==
            if forall name :: name in names ==> SafeID(name) then Ok(GlobalGroups(names)) else Err(UnsafeID)
    ensures GroupsProblem(GlobalGroups(names)).None? <==> forall name :: name in names ==> SafeID(name)
  {
    if names != [] {
      NamedGroupsAre(names[1..]);
      NewGlobalGroup(names[0]);
      assert names == [names[0]] + names[1..];
      assert GlobalGroups(names)[1..] == GlobalGroups(names[1..]);
      assert GlobalGroups(names) == [GlobalGroup(names[0])] + GlobalGroups(names[1..]);
    }
  }

  /** The names option keeps the memberships a user already has, and adds the global groups of the names after them. */
  lemma UserWithGroupNamesIs(u: User, names: seq<string>)
    ensures UserWithGroupNames(names).Opt?
    ensures UserWithGroupNames(names).apply(u) ==
            if forall name :: name in names ==> SafeID(name) then
              Ok(User(u.id, u.namespace, u.groups + GlobalGroups(names)))
            else Err(UnsafeID)
  {
    NamedGroupsAre(names);
  }

  /** The groups option keeps the memberships a user already has, and adds the valid groups after them. */
  lemma UserWithGroupsIs(u: User, groups: seq<Group>)
    ensures UserWithGroups(groups).Opt?
    ensures UserWithGroups(groups).apply(u).Ok? <==> forall g :: g in groups ==> GroupProblem(g).None?
    ensures UserWithGroups(groups).apply(u).Ok? ==>
              UserWithGroups(groups).apply(u) == Ok(User(u.id, u.namespace, u.groups + groups))
    ensures UserWithGroups(groups).apply(u).Err? ==>
              exists k :: FirstBadGroup(groups, k, UserWithGroups(groups).apply(u).error)
  {
    GroupsProblemNoneIff(groups);
    if GroupsProblem(groups).Some? {
      var k := FirstBad(groups);
      assert FirstBadGroup(groups, k, GroupsProblem(groups).value);
    }
  }

  ghost predicate FirstBadGroup(groups: seq<Group>, k: int, error: DomainError) {
    && 0 <= k < |groups| && GroupProblem(groups[k]) == Some(error)
    && forall i :: 0 <= i < k ==> GroupProblem(groups[i]).None?
  }

  lemma {:induction false} FirstBad(groups: seq<Group>) returns (k: nat)
    requires GroupsProblem(groups).Some?
    ensures k < |groups| && GroupProblem(groups[k]) == GroupsProblem(groups)
    ensures forall i :: 0 <= i < k ==> GroupProblem(groups[i]).None?
  {
    if GroupProblem(groups[0]).Some? {
      k := 0;
    } else {
      k := FirstBad(groups[1..]);
      assert forall i :: 1 <= i < k + 1 ==> groups[i] == groups[1..][i - 1];
      k := k + 1;
    }
  }

  /** The two ways to add memberships. UserInGroups is another name for the second. */
  datatype Membership = InGroups(groups: seq<Group>) | InNamedGroups(names: seq<string>)

  function MembershipOption(m: Membership): Opt<User> {
    match m
    case InGroups(groups) => UserWithGroups(groups)
    case InNamedGroups(names) => UserWithGroupNames(names)
  }

  function MembershipOptions(memberships: seq<Membership>): seq<Opt<User>> {
    seq(|memberships|, i requires 0 <= i < |memberships| => MembershipOption(memberships[i]))
  }

  function GroupsOf(m: Membership): seq<Group> {
    match m
    case InGroups(groups) => groups
    case InNamedGroups(names) => GlobalGroups(names)
  }

  function AllGroups(memberships: seq<Membership>): seq<Group> {
    if memberships == [] then [] else GroupsOf(memberships[0]) + AllGroups(memberships[1..])
  }

  lemma MembershipApplied(u: User, m: Membership)
    ensures MembershipOption(m).Opt?
    ensures MembershipOption(m).apply(u) == Checked(u.(groups := u.groups + GroupsOf(m)), GroupsProblem(GroupsOf(m)))
  {
    match m {
      case InGroups(groups) => UserWithGroupsIs(u, groups);
      case InNamedGroups(names) =>
        UserWithGroupNamesIs(u, names);
        NamedGroupsAre(names);
        UnsafeNames(names);
    }
  }

  lemma {:induction false} UnsafeNames(names: seq<string>)
    ensures GroupsProblem(GlobalGroups(names)) in {None, Some(UnsafeID)}
  {
    if names != [] {
      UnsafeNames(names[1..]);
      assert GlobalGroups(names)[1..] == GlobalGroups(names[1..]);
    }
  }

  lemma {:induction false} MembershipsApplied(u: User, memberships: seq<Membership>)
    ensures ApplyAll(u, MembershipOptions(memberships)) ==
            Checked(u.(groups := u.groups + AllGroups(memberships)), GroupsProblem(AllGroups(memberships)))
    decreases |memberships|
  {
    if memberships == [] {
      assert u.groups + [] == u.groups;
    } else {
      var first, rest := memberships[0], memberships[1..];
      assert MembershipOptions(memberships)[1..] == MembershipOptions(rest);
      MembershipApplied(u, first);
      GroupsProblemConcat(GroupsOf(first), AllGroups(rest));
      if GroupsProblem(GroupsOf(first)).None? {
        MembershipsApplied(u.(groups := u.groups + GroupsOf(first)), rest);
        Assoc(u.groups, GroupsOf(first), AllGroups(rest));
      }
    }
  }

  /** Membership options compose: the user has the groups of all of them, in option order, and fails exactly when the
      ID or one of those groups does. */
  lemma NewUserInGroups(id: string, memberships: seq<Membership>)
    ensures var u := User(EntityID(id, true), GLOBAL, AllGroups(memberships));
            NewUser(id, MembershipOptions(memberships)) == Checked(u, UserProblem(u))
  {
    var initial := User(EntityID(id, true), GLOBAL, []);
    MembershipsApplied(initial, memberships);
    assert [] + AllGroups(memberships) == AllGroups(memberships);
  }

  // ---- Namespaces ----

  /** A namespace option replaces the namespace and nothing else, exactly when the new one is valid. */
  lemma NamespaceOptionsAre(g: Group, u: User, a: Action, namespace: Namespace)
    ensures GroupWithNamespace(namespace).Opt? && UserWithNamespace(namespace).Opt? && ActionWithNamespace(namespace).Opt?
    ensures NamespaceProblem(namespace).None? ==>
              && GroupWithNamespace(namespace).apply(g) == Ok(Group(g.id, namespace))
              && UserWithNamespace(namespace).apply(u) == Ok(User(u.id, namespace, u.groups))
              && ActionWithNamespace(namespace).apply(a) == Ok(Action(a.id, namespace))
    ensures NamespaceProblem(namespace).Some? ==>
              var error := BadPath(NamespaceProblem(namespace).value);
              && GroupWithNamespace(namespace).apply(g) == Err(error)
              && UserWithNamespace(namespace).apply(u) == Err(error)
              && ActionWithNamespace(namespace).apply(a) == Err(error)
  {
  }

  // ---- Resource attributes ----

  /** One attribute, added to or replacing one of the resource. */
  function ResourceWithAttribute(name: string, value: AttrValue, validIP: IPCheck): Opt<Resource> {
    Opt((r: Resource) =>
          if SafeName(name) && WellFormed(value, validIP) then Ok(r.(attrs := r.attrs[name := value]))
          else Err(BadAttributes))
  }

  lemma EntryAdded(base: map<string, AttrValue>, added: map<string, AttrValue>, name: string, value: AttrValue)
    ensures (base + added)[name := value] == base + added[name := value]
  {
  }

  /** The loop over a map of attributes applies the single option to every entry, in any order, and stops at the first
      that fails. */
  method AddAttributes(r: Resource, attrs: map<string, AttrValue>, validIP: IPCheck)
    returns (result: Result<Resource, DomainError>)
    ensures ResourceWithAttributes(attrs, validIP).Opt?
    ensures result == ResourceWithAttributes(attrs, validIP).apply(r)
  {
    var resource := r;
    var pending := attrs.Keys;
    ghost var added: map<string, AttrValue> := map[];
    while pending != {}
      invariant pending <= attrs.Keys
      invariant added.Keys == attrs.Keys - pending
      invariant forall name :: name in added ==> added[name] == attrs[name]
      invariant resource == r.(attrs := r.attrs + added)
      invariant forall name :: name in added ==> SafeName(name) && WellFormed(attrs[name], validIP)
      decreases pending
    {
      var name :| name in pending;
      var next := ResourceWithAttribute(name, attrs[name], validIP).apply(resource);
      if next.Err? {
        return Err(next.error);
      }
      resource := next.value;
      EntryAdded(r.attrs, added, name, attrs[name]);
      pending := pending - {name};
      added := added[name := attrs[name]];
    }
    assert added == attrs;
    return Ok(resource);
  }

  /** The option keeps the attributes a resource already has, except those it replaces. */
  lemma ResourceWithAttributesIs(r: Resource, attrs: map<string, AttrValue>, validIP: IPCheck)
    ensures ResourceWithAttributes(attrs, validIP).Opt?
    ensures var result := ResourceWithAttributes(attrs, validIP).apply(r);
            && (result.Ok? <==> SafeAttributes(attrs, validIP))
            && (result.Err? ==> result.error == BadAttributes)
            && (result.Ok? ==>
                  && result.value.kind == r.kind && result.value.id == r.id
                  && result.value.attrs.Keys == r.attrs.Keys + attrs.Keys
                  && forall name :: name in result.value.attrs ==>
                       result.value.attrs[name] == if name in attrs then attrs[name] else r.attrs[name])
  {
  }

  function AttributeOptions(maps: seq<map<string, AttrValue>>, validIP: IPCheck): seq<Opt<Resource>> {
    if maps == [] then [] else [ResourceWithAttributes(maps[0], validIP)] + AttributeOptions(maps[1..], validIP)
  }

  /** Later maps win. */
  function Merged(maps: seq<map<string, AttrValue>>): map<string, AttrValue> {
    if maps == [] then map[] else maps[0] + Merged(maps[1..])
  }

  predicate AllSafe(maps: seq<map<string, AttrValue>>, validIP: IPCheck) {
    maps == [] || (SafeAttributes(maps[0], validIP) && AllSafe(maps[1..], validIP))
  }

  lemma {:induction false} AttributesApplied(r: Resource, maps: seq<map<string, AttrValue>>, validIP: IPCheck)
    ensures ApplyAll(r, AttributeOptions(maps, validIP)) ==
            if AllSafe(maps, validIP) then Ok(r.(attrs := r.attrs + Merged(maps))) else Err(BadAttributes)
    decreases |maps|
  {
    if maps == [] {
      assert r.attrs + map[] == r.attrs;
    } else {
      var options, rest := AttributeOptions(maps, validIP), AttributeOptions(maps[1..], validIP);
      assert options[0] == ResourceWithAttributes(maps[0], validIP) && options[1..] == rest;
      if SafeAttributes(maps[0], validIP) {
        AttributesApplied(r.(attrs := r.attrs + maps[0]), maps[1..], validIP);
        MapAssoc(r.attrs, maps[0], Merged(maps[1..]));
      }
    }
  }

  lemma MapAssoc(a: map<string, AttrValue>, b: map<string, AttrValue>, c: map<string, AttrValue>)
    ensures a + b + c == a + (b + c)
  {
  }

  /** Attribute options compose: the resource has the entries of all of them, the last one of a name winning. */
  lemma NewResourceWithMaps(kind: EntityType, id: string, maps: seq<map<string, AttrValue>>, validIP: IPCheck)
    ensures var resource := NewResourceWithType(kind, id, AttributeOptions(maps, validIP), validIP);
            if EntityTypeProblem(kind).Some? then resource == Err(BadPath(EntityTypeProblem(kind).value))
            else if !SafeID(id) then resource == Err(UnsafeID)
            else if !AllSafe(maps, validIP) then resource == Err(BadAttributes)
            else resource == Ok(Resource(kind, EntityID(id, true), Merged(maps)))
  {
    var initial, options := Resource(kind, EntityID(id, true), map[]), AttributeOptions(maps, validIP);
    AttributesApplied(initial, maps, validIP);
    assert map[] + Merged(maps) == Merged(maps);
    if AllSafe(maps, validIP) {
      MergedIsSafe(maps, validIP);
      assert ApplyAll(initial, options) == Ok(initial.(attrs := Merged(maps)));
    } else {
      assert ApplyAll(initial, options) == Err(BadAttributes);
    }
  }

  lemma {:induction false} MergedIsSafe(maps: seq<map<string, AttrValue>>, validIP: IPCheck)
    requires AllSafe(maps, validIP)
    ensures SafeAttributes(Merged(maps), validIP)
  {
    if maps != [] {
      MergedIsSafe(maps[1..], validIP);
    }
  }

  // ---- Requests ----

  /** A request is made of exactly the valid parts; otherwise the error is that of the first invalid one. */
  lemma NewRequestIs(principal: Principal, action: Action, resource: Resource, validIP: IPCheck)
    ensures var request := NewRequest(principal, action, resource, validIP);
            if PrincipalProblem(principal).Some? then request == Err(PrincipalProblem(principal).value)
            else if ActionProblem(action).Some? then request == Err(ActionProblem(action).value)
            else if ResourceProblem(resource, validIP).Some? then request == Err(ResourceProblem(resource, validIP).value)
            else request == Ok(Request(principal, action, resource))
  {
  }
}
