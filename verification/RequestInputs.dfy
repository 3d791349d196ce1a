/** NewRequestFrom: raw input records, converted by driving a RequestBuilder once. */
module RequestInputs {
  import opened Results
  import opened Sequences
  import opened CedarPath
  import opened AttrValues
  import opened RequestDomain
  import opened RequestOptions
  import opened RequestBuilders

  datatype GroupInput = GroupInput(name: string, namespace: seq<string>)

  datatype UserInput = UserInput(name: string, namespace: seq<string>, groupNames: seq<string>, groups: seq<GroupInput>)

  /** A value or a non-nil pointer of either input type; NilInput is a nil interface or a nil pointer. */
  datatype PrincipalInput = NilInput | FromUser(user: UserInput) | FromGroup(group: GroupInput)

  /** attributes is None for a nil map. */
  datatype ResourceInput = ResourceInput(kind: string, id: string, attributes: Option<map<string, AttrValue>>)

  datatype RequestInput = RequestInput(
    principal: PrincipalInput,
    action: string,
    actionNamespace: seq<string>,
    resource: ResourceInput)

  // ---- The option closures ----

  function UserNamespaceInput(segments: seq<string>): Opt<User> {
    Opt((u: User) =>
          match NewNamespace(segments)
          case Err(problem) => Err(BadPath(problem))
          case Ok(namespace) => PlaceUser(u, namespace))
  }

  function GroupNamespaceInput(segments: seq<string>): Opt<Group> {
    Opt((g: Group) =>
          match NewNamespace(segments)
          case Err(problem) => Err(BadPath(problem))
          case Ok(namespace) => PlaceGroup(g, namespace))
  }

  function ActionNamespaceInput(segments: seq<string>): Opt<Action> {
    Opt((a: Action) =>
          match NewNamespace(segments)
          case Err(problem) => Err(BadPath(problem))
          case Ok(namespace) => PlaceAction(a, namespace))
  }

  function GroupFromInput(input: GroupInput): Result<Group, DomainError> {
    match NewNamespace(input.namespace)
    case Err(problem) => Err(BadPath(problem))
    case Ok(namespace) => NewGroup(input.name, [GroupWithNamespace(namespace)])
  }

  function MembershipInput(input: GroupInput): Opt<User> {
    Opt((u: User) =>
          match GroupFromInput(input)
          case Err(error) => Err(error)
          case Ok(group) => AddGroups(u, [group]))
  }

  function Memberships(groups: seq<GroupInput>): seq<Opt<User>> {
    if groups == [] then [] else [MembershipInput(groups[0])] + Memberships(groups[1..])
  }

  function UserOptions(input: UserInput): seq<Opt<User>> {
    [UserNamespaceInput(input.namespace)]
    + (if input.groupNames != [] then [UserWithGroupNames(input.groupNames)] else [])
    + Memberships(input.groups)
  }

  /** The setter calls that the input turns into. */
  function PrincipalCall(input: PrincipalInput): Option<Call> {
    match input
    case NilInput => None
    case FromUser(user) => Some(UserCall(user.name, UserOptions(user)))
    case FromGroup(group) => Some(GroupCall(group.name, [GroupNamespaceInput(group.namespace)]))
  }

  function PrincipalCalls(call: Option<Call>): seq<Call> {
    if call.Some? then [call.value] else []
  }

  function InputActionCall(input: RequestInput): Call {
    ActionCall(input.action, [ActionNamespaceInput(input.actionNamespace)])
  }

  function InputResourceCall(input: ResourceInput, validIP: IPCheck): Call {
    ResourceCall(input.kind, input.id,
                 if input.attributes.Some? then [ResourceWithAttributes(input.attributes.value, validIP)] else [])
  }

  function Calls(input: RequestInput, validIP: IPCheck): seq<Call> {
    PrincipalCalls(PrincipalCall(input.principal))
    + [InputActionCall(input)] + [InputResourceCall(input.resource, validIP)]
  }

  method ApplyUserInput(builder: RequestBuilder, input: UserInput)
    modifies builder
    ensures builder.Value() == Step(old(builder.Value()), UserCall(input.name, UserOptions(input)))
  {
    var options := [UserNamespaceInput(input.namespace)];
    if input.groupNames != [] {
      options := options + [UserWithGroupNames(input.groupNames)];
    }
    ghost var start := options;
    assert start == [UserNamespaceInput(input.namespace)]
                    + if input.groupNames != [] then [UserWithGroupNames(input.groupNames)] else [];
    assert input.groups[0..] == input.groups;
    for i := 0 to |input.groups|
      invariant builder.Value() == old(builder.Value())
      invariant start + Memberships(input.groups) == options + Memberships(input.groups[i..])
    {
      assert input.groups[i..][1..] == input.groups[i + 1..];
      Assoc(options, [MembershipInput(input.groups[i])], Memberships(input.groups[i + 1..]));
      options := options + [MembershipInput(input.groups[i])];
    }
    assert options + Memberships(input.groups[|input.groups|..]) == options;
    builder.SetUser(input.name, options);
  }

  method ApplyPrincipalInput(builder: RequestBuilder, input: PrincipalInput)
    requires builder.Value() == EMPTY
    modifies builder
    ensures builder.Value() == Run(PrincipalCalls(PrincipalCall(input)))
  {
    match input {
      case FromUser(user) =>
        ApplyUserInput(builder, user);
        RunAppend([], UserCall(user.name, UserOptions(user)));
      case FromGroup(group) =>
        builder.SetGroup(group.name, [GroupNamespaceInput(group.namespace)]);
        RunAppend([], GroupCall(group.name, [GroupNamespaceInput(group.namespace)]));
      case NilInput =>
    }
  }

  method ApplyInput(builder: RequestBuilder, input: RequestInput, validIP: IPCheck)
    requires builder.Value() == EMPTY
    modifies builder
    ensures builder.Value() == Run(Calls(input, validIP))
  {
    ApplyPrincipalInput(builder, input.principal);
    builder.SetAction(input.action, [ActionNamespaceInput(input.actionNamespace)]);
    var resourceOptions: seq<Opt<Resource>> := [];
    if input.resource.attributes.Some? {
      resourceOptions := resourceOptions + [ResourceWithAttributes(input.resource.attributes.value, validIP)];
    }
    builder.SetResource(input.resource.kind, input.resource.id, resourceOptions);
    ghost var before := PrincipalCalls(PrincipalCall(input.principal));
    RunAppend(before, InputActionCall(input));
    RunAppend(before + [InputActionCall(input)], InputResourceCall(input.resource, validIP));
  }

  method NewRequestFrom(input: RequestInput, validIP: IPCheck) returns (r: Result<Request, seq<BuildError>>)
    ensures r == BuildResult(Run(Calls(input, validIP)), validIP)
  {
    var builder := new RequestBuilder();
    ApplyInput(builder, input, validIP);
    r := builder.Build(validIP);
  }

  // ---- What the input means ----

  lemma UserNamespaceInputIs(segments: seq<string>, u: User)
    ensures UserNamespaceInput(segments).apply(u) ==
            match NewNamespace(segments)
            case Err(problem) => Err(BadPath(problem))
            case Ok(namespace) => Ok(u.(namespace := namespace))
  {
    if NewNamespace(segments).Ok? {
      SegmentsOfNewNamespace(segments);
    }
  }

  lemma MembershipInputIs(input: GroupInput, u: User)
    ensures MembershipInput(input).apply(u) ==
            match GroupFromInput(input)
            case Err(error) => Err(error)
            case Ok(group) => Ok(u.(groups := u.groups + [group]))
  {
    if GroupFromInput(input).Ok? {
      var group := GroupFromInput(input).value;
      assert GroupProblem(group).None?;
      assert GroupsProblem([group]) == FirstOf(GroupProblem(group), GroupsProblem([]));
    }
  }

  /** A membership is the described ID in the described namespace; the namespace is checked first. */
  lemma GroupFromInputIs(input: GroupInput)
    ensures GroupFromInput(input) ==
            match NewNamespace(input.namespace)
            case Err(problem) => Err(BadPath(problem))
            case Ok(namespace) =>
              if SafeID(input.name) then Ok(Group(EntityID(input.name, true), namespace)) else Err(UnsafeID)
  {
    if NewNamespace(input.namespace).Ok? {
      SegmentsOfNewNamespace(input.namespace);
      NewGroupIs(input.name, NewNamespace(input.namespace).value);
    }
  }

  function GroupsFromInput(groups: seq<GroupInput>): Result<seq<Group>, DomainError> {
    if groups == [] then Ok([])
    else match GroupFromInput(groups[0])
      case Err(error) => Err(error)
      case Ok(first) =>
        match GroupsFromInput(groups[1..])
        case Err(error) => Err(error)
        case Ok(rest) => Ok([first] + rest)
  }

  /** The user an input describes: checks in the order ID, namespace, group names, groups. */
  function InputUser(input: UserInput): Result<User, DomainError> {
    if !SafeID(input.name) then Err(UnsafeID)
    else match (NewNamespace(input.namespace), NamedGroups(input.groupNames), GroupsFromInput(input.groups))
      case (Err(problem), _, _) => Err(BadPath(problem))
      case (_, Err(error), _) => Err(error)
      case (_, _, Err(error)) => Err(error)
      case (Ok(namespace), Ok(named), Ok(groups)) =>
        Ok(User(EntityID(input.name, true), namespace, named + groups))
  }

  lemma {:induction false} GroupsFromInputAre(groups: seq<GroupInput>)
    ensures GroupsFromInput(groups).Ok? <==> forall g :: g in groups ==> SafeID(g.name) && AllIdentifiers(g.namespace)
    ensures GroupsFromInput(groups).Ok? ==>
              && |GroupsFromInput(groups).value| == |groups|
              && forall i :: 0 <= i < |groups| ==> Describes(groups[i], GroupsFromInput(groups).value[i])
  {
    if groups != [] {
      GroupsFromInputAre(groups[1..]);
      GroupFromInputIs(groups[0]);
      NewNamespaceIs(groups[0].namespace);
      assert groups == [groups[0]] + groups[1..];
      if AllIdentifiers(groups[0].namespace) {
        SegmentsOfNewNamespace(groups[0].namespace);
      }
    }
  }

  /** The group has exactly the ID and the namespace segments of the input. */
  predicate Describes(input: GroupInput, g: Group) {
    g.id == EntityID(input.name, true) && Segments(g.namespace) == input.namespace
  }

  /** The user of an input, field by field: the global groups of the names, in order, and then one group for each
      qualified membership, in order, with its own ID and namespace. */
  lemma InputUserIs(input: UserInput)
    ensures InputUser(input).Ok? <==>
              && SafeID(input.name) && AllIdentifiers(input.namespace)
              && (forall name :: name in input.groupNames ==> SafeID(name))
              && forall g :: g in input.groups ==> SafeID(g.name) && AllIdentifiers(g.namespace)
    ensures InputUser(input).Ok? ==>
              var u, n := InputUser(input).value, |input.groupNames|;
              && u.id == EntityID(input.name, true) && Segments(u.namespace) == input.namespace
              && |u.groups| == n + |input.groups|
              && (forall i :: 0 <= i < n ==> u.groups[i] == GlobalGroup(input.groupNames[i]))
              && forall i :: 0 <= i < |input.groups| ==> Describes(input.groups[i], u.groups[n + i])
  {
    NewNamespaceIs(input.namespace);
    NamedGroupsAre(input.groupNames);
    GroupsFromInputAre(input.groups);
    if NewNamespace(input.namespace).Ok? {
      SegmentsOfNewNamespace(input.namespace);
    }
  }

  lemma {:induction false} GroupsFromInputAreValid(groups: seq<GroupInput>)
    ensures GroupsFromInput(groups).Ok? ==> GroupsProblem(GroupsFromInput(groups).value).None?
  {
    if groups != [] {
      GroupsFromInputAreValid(groups[1..]);
    }
  }

  lemma {:induction false} MembershipsAppend(u: User, groups: seq<GroupInput>)
    ensures ApplyAll(u, Memberships(groups)) ==
            match GroupsFromInput(groups)
            case Err(error) => Err(error)
            case Ok(values) => Ok(u.(groups := u.groups + values))
    decreases |groups|
  {
    if groups == [] {
      assert u.groups + [] == u.groups;
    } else {
      assert Memberships(groups)[1..] == Memberships(groups[1..]);
      var first := GroupFromInput(groups[0]);
      MembershipInputIs(groups[0], u);
      if first.Ok? {
        var joined := u.(groups := u.groups + [first.value]);
        MembershipsAppend(joined, groups[1..]);
        if GroupsFromInput(groups[1..]).Ok? {
          Assoc(u.groups, [first.value], GroupsFromInput(groups[1..]).value);
        }
      }
    }
  }

  /** The options the input turns into build exactly the user it describes: global groups first, then the qualified
      ones, both in input order. */
  lemma NewUserFromInput(input: UserInput)
    ensures NewUser(input.name, UserOptions(input)) == InputUser(input)
  {
    var initial := User(EntityID(input.name, true), GLOBAL, []);
    var namespace := NewNamespace(input.namespace);
    var first := [UserNamespaceInput(input.namespace)];
    var names := if input.groupNames != [] then [UserWithGroupNames(input.groupNames)] else [];
    ApplyConcat(initial, first + names, Memberships(input.groups));
    ApplyConcat(initial, first, names);
    UserNamespaceInputIs(input.namespace, initial);
    if namespace.Ok? {
      var placed := initial.(namespace := namespace.value);
      assert ApplyAll(initial, first) == Ok(placed);
      NamedGroupsAre(input.groupNames);
      if NamedGroups(input.groupNames).Ok? {
        var named := NamedGroups(input.groupNames).value;
        assert placed.groups + named == named;
        if names == [] {
          assert input.groupNames == [];
          assert named == [];
          assert placed.(groups := named) == placed;
        } else {
          assert UserWithGroupNames(input.groupNames).apply(placed) == Ok(placed.(groups := placed.groups + named));
          assert ApplyAll(placed, names) == Ok(placed.(groups := named));
        }
        assert ApplyAll(placed, names) == Ok(placed.(groups := named));
        MembershipsAppend(placed.(groups := named), input.groups);
        if GroupsFromInput(input.groups).Ok? {
          GroupsFromInputAreValid(input.groups);
          GroupsProblemConcat(named, GroupsFromInput(input.groups).value);
        }
      } else {
        assert ApplyAll(placed, names) == Err(NamedGroups(input.groupNames).error);
      }
    } else {
      assert ApplyAll(initial, first) == Err(BadPath(namespace.error));
    }
  }

  /** The group an input describes as a principal: the ID is checked before the namespace. As a membership, in
      GroupFromInput, the namespace comes first. */
  function InputGroup(input: GroupInput): Result<Group, DomainError> {
    if !SafeID(input.name) then Err(UnsafeID)
    else match NewNamespace(input.namespace)
      case Err(problem) => Err(BadPath(problem))
      case Ok(namespace) => Ok(Group(EntityID(input.name, true), namespace))
  }

  function InputAction(input: RequestInput): Result<Action, DomainError> {
    if !SafeID(input.action) then Err(UnsafeID)
    else match NewNamespace(input.actionNamespace)
      case Err(problem) => Err(BadPath(problem))
      case Ok(namespace) => Ok(Action(EntityID(input.action, true), namespace))
  }

  /** A nil map of attributes describes the same resource as an empty one. */
  function InputResource(input: ResourceInput, validIP: IPCheck): Result<Resource, DomainError> {
    var attrs := if input.attributes.Some? then input.attributes.value else map[];
    match NewEntityType(input.kind)
    case Err(problem) => Err(BadPath(problem))
    case Ok(kind) =>
      if !SafeID(input.id) then Err(UnsafeID)
      else if !SafeAttributes(attrs, validIP) then Err(BadAttributes)
      else Ok(Resource(kind, EntityID(input.id, true), attrs))
  }

  lemma NewGroupFromInput(input: GroupInput)
    ensures NewGroup(input.name, [GroupNamespaceInput(input.namespace)]) == InputGroup(input)
  {
    var initial := Group(EntityID(input.name, true), GLOBAL);
    if NewNamespace(input.namespace).Ok? {
      SegmentsOfNewNamespace(input.namespace);
    }
    assert ApplyAll(initial, [GroupNamespaceInput(input.namespace)]) ==
           match NewNamespace(input.namespace)
           case Err(problem) => Err(BadPath(problem))
           case Ok(namespace) => Ok(initial.(namespace := namespace));
  }

  lemma NewActionFromInput(input: RequestInput)
    ensures NewAction(input.action, [ActionNamespaceInput(input.actionNamespace)]) == InputAction(input)
  {
    var initial := Action(EntityID(input.action, true), GLOBAL);
    if NewNamespace(input.actionNamespace).Ok? {
      SegmentsOfNewNamespace(input.actionNamespace);
    }
    assert ApplyAll(initial, [ActionNamespaceInput(input.actionNamespace)]) ==
           match NewNamespace(input.actionNamespace)
           case Err(problem) => Err(BadPath(problem))
           case Ok(namespace) => Ok(initial.(namespace := namespace));
  }

  lemma NewResourceFromInput(input: ResourceInput, validIP: IPCheck)
    ensures var options :=
              if input.attributes.Some? then [ResourceWithAttributes(input.attributes.value, validIP)] else [];
            NewResource(input.kind, input.id, options, validIP) == InputResource(input, validIP)
  {
    if NewEntityType(input.kind).Ok? && input.attributes.Some? {
      NewResourceIs(NewEntityType(input.kind).value, input.id, input.attributes.value, validIP);
    }
  }

  function Labelled<T>(field: Field, r: Result<T, DomainError>): Result<T, BuildError> {
    match r
    case Err(e) => Err(Invalid(field, e))
    case Ok(value) => Ok(value)
  }

  function InputPrincipal(input: PrincipalInput): Result<Principal, BuildError> {
    match input
    case NilInput => Err(Missing(PrincipalField))
    case FromUser(user) =>
      (match Labelled(PrincipalField, InputUser(user))
       case Err(e) => Err(e)
       case Ok(value) => Ok(UserPrincipal(value)))
    case FromGroup(group) =>
      (match Labelled(PrincipalField, InputGroup(group))
       case Err(e) => Err(e)
       case Ok(value) => Ok(GroupPrincipal(value)))
  }

  lemma NothingRepeats(calls: seq<Call>)
    requires forall field :: Count(calls, field) <= 1
    ensures Repeats(calls) == []
  {
    RepeatsCount(calls);
  }

  lemma FieldsFromInput(input: RequestInput, validIP: IPCheck)
    ensures PrincipalFrom(PrincipalCall(input.principal)) == InputPrincipal(input.principal)
    ensures ActionFrom(Some(InputActionCall(input))) == Labelled(ActionField, InputAction(input))
    ensures ResourceFrom(Some(InputResourceCall(input.resource, validIP)), validIP) ==
            Labelled(ResourceField, InputResource(input.resource, validIP))
  {
    match input.principal {
      case FromUser(user) => NewUserFromInput(user);
      case FromGroup(group) => NewGroupFromInput(group);
      case NilInput =>
    }
    NewActionFromInput(input);
    NewResourceFromInput(input.resource, validIP);
  }

  lemma CallsAre(input: RequestInput, validIP: IPCheck)
    ensures var calls := Calls(input, validIP);
            && First(calls, PrincipalField) == PrincipalCall(input.principal)
            && First(calls, ActionField) == Some(InputActionCall(input))
            && First(calls, ResourceField) == Some(InputResourceCall(input.resource, validIP))
            && Repeats(calls) == []
            && forall field :: Count(calls, field) == if First(calls, field).Some? then 1 else 0
  {
    var calls := Calls(input, validIP);
    forall field
      ensures Count(calls, field) == if First(calls, field).Some? then 1 else 0
    {
      CallsInOrder(PrincipalCall(input.principal), InputActionCall(input), InputResourceCall(input.resource, validIP),
                   field);
    }
    CallsInOrder(PrincipalCall(input.principal), InputActionCall(input), InputResourceCall(input.resource, validIP),
                 PrincipalField);
    CallsInOrder(PrincipalCall(input.principal), InputActionCall(input), InputResourceCall(input.resource, validIP),
                 ActionField);
    CallsInOrder(PrincipalCall(input.principal), InputActionCall(input), InputResourceCall(input.resource, validIP),
                 ResourceField);
    NothingRepeats(calls);
  }

  /** NewRequestFrom makes exactly the request that the input describes. It never reports a repeated field, and at most
      one error for each of the three fields. */
  lemma NewRequestFromIs(input: RequestInput, validIP: IPCheck)
    ensures var principal := InputPrincipal(input.principal);
            var action := Labelled(ActionField, InputAction(input));
            var resource := Labelled(ResourceField, InputResource(input.resource, validIP));
            BuildResult(Run(Calls(input, validIP)), validIP) ==
            if principal.Ok? && action.Ok? && resource.Ok? then
              Ok(Request(principal.value, action.value, resource.value))
            else Err(ErrorOf(principal) + ErrorOf(action) + ErrorOf(resource))
  {
    CallsAre(input, validIP);
    FieldsFromInput(input, validIP);
    BuildAfter(Calls(input, validIP), validIP);
    var principal := InputPrincipal(input.principal);
    assert [] + ErrorOf(principal) == ErrorOf(principal);
  }
}
