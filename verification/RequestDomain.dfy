/** The request domain: entities, their validation, and their option-driven constructors. */
module RequestDomain {
  import opened Results
  import opened CedarPath
  import opened AttrValues

  /** An identifier that only the package's constructors can mark as set. */
  datatype EntityID = EntityID(value: string, isSet: bool)

  datatype Group = Group(id: EntityID, namespace: Namespace)

  datatype User = User(id: EntityID, namespace: Namespace, groups: seq<Group>)

  datatype Principal = NoPrincipal | UserPrincipal(user: User) | GroupPrincipal(group: Group)

  datatype Action = Action(id: EntityID, namespace: Namespace)

  datatype Resource = Resource(kind: EntityType, id: EntityID, attrs: map<string, AttrValue>)

  datatype Request = Request(principal: Principal, action: Action, resource: Resource)

  /** Errors by kind. BadAttributes stands for whichever entry of an unordered map is reported first. */
  datatype DomainError =
    | UnsetID
    | UnsafeID
    | BadPath(problem: IdentifierError)
    | BadAttributes
    | PrincipalMissing
    | NilOption

  // ---- Character checks ----

  /** unicode.IsControl: the general category Cc. */
  predicate IsControl(c: char) {
    c < ' ' || '\U{7F}' <= c <= '\U{9F}'
  }

  predicate SafeID(value: string) {
    forall c :: c in value ==> c != '"' && c != '\\' && !IsControl(c)
  }

  /** Attribute names and request IDs. */
  predicate SafeName(value: string) {
    value != "" && forall c :: c in value ==> !IsControl(c)
  }

  method ValidateEntityID(value: string) returns (safe: bool)
    ensures safe <==> SafeID(value)
  {
    for i := 0 to |value|
      invariant SafeID(value[..i])
    {
      assert value[..i + 1] == value[..i] + [value[i]];
      if value[i] == '"' || value[i] == '\\' || IsControl(value[i]) {
        assert value[i] in value;
        return false;
      }
    }
    assert value[..|value|] == value;
    return true;
  }

  /** validateAttributeName and validateRequestID: the same loop under two names. */
  method ValidateName(value: string) returns (safe: bool)
    ensures safe <==> SafeName(value)
  {
    if value == "" {
      return false;
    }
    for i := 0 to |value|
      invariant forall j :: 0 <= j < i ==> !IsControl(value[j])
    {
      if IsControl(value[i]) {
        assert value[i] in value;
        return false;
      }
    }
    return true;
  }

  // ---- Validate methods ----

  function PathProblem(problem: Option<IdentifierError>): Option<DomainError> {
    if problem.Some? then Some(BadPath(problem.value)) else None
  }

  function IDProblem(id: EntityID): Option<DomainError> {
    if !id.isSet then Some(UnsetID) else if !SafeID(id.value) then Some(UnsafeID) else None
  }

  function FirstOf(a: Option<DomainError>, b: Option<DomainError>): Option<DomainError> {
    if a.Some? then a else b
  }

  function GroupProblem(g: Group): Option<DomainError> {
    FirstOf(IDProblem(g.id), PathProblem(NamespaceProblem(g.namespace)))
  }

  function GroupsProblem(groups: seq<Group>): Option<DomainError> {
    if groups == [] then None else FirstOf(GroupProblem(groups[0]), GroupsProblem(groups[1..]))
  }

  function UserProblem(u: User): Option<DomainError> {
    FirstOf(IDProblem(u.id), FirstOf(PathProblem(NamespaceProblem(u.namespace)), GroupsProblem(u.groups)))
  }

  function PrincipalProblem(p: Principal): Option<DomainError> {
    match p
    case NoPrincipal => Some(PrincipalMissing)
    case UserPrincipal(user) => UserProblem(user)
    case GroupPrincipal(group) => GroupProblem(group)
  }

  function ActionProblem(a: Action): Option<DomainError> {
    FirstOf(IDProblem(a.id), PathProblem(NamespaceProblem(a.namespace)))
  }

  predicate SafeAttributes(attrs: map<string, AttrValue>, validIP: IPCheck) {
    forall name :: name in attrs ==> SafeName(name) && WellFormed(attrs[name], validIP)
  }

  function AttributesProblem(attrs: map<string, AttrValue>, validIP: IPCheck): Option<DomainError> {
    if SafeAttributes(attrs, validIP) then None else Some(BadAttributes)
  }

  function ResourceProblem(r: Resource, validIP: IPCheck): Option<DomainError> {
    FirstOf(PathProblem(EntityTypeProblem(r.kind)), FirstOf(IDProblem(r.id), AttributesProblem(r.attrs, validIP)))
  }

  function RequestProblem(r: Request, validIP: IPCheck): Option<DomainError> {
    FirstOf(PrincipalProblem(r.principal), FirstOf(ActionProblem(r.action), ResourceProblem(r.resource, validIP)))
  }

  method ValidateGroup(g: Group) returns (problem: Option<DomainError>)
    ensures problem == GroupProblem(g)
  {
    if !g.id.isSet {
      return Some(UnsetID);
    }
    var safe := ValidateEntityID(g.id.value);
    if !safe {
      return Some(UnsafeID);
    }
    if g.namespace.path == "" {
      return None;
    }
    var path := ValidateCedarPath(g.namespace.path);
    return if path.Some? then Some(BadPath(path.value)) else None;
  }

  method ValidateUser(u: User) returns (problem: Option<DomainError>)
    ensures problem == UserProblem(u)
  {
    problem := IDProblem(u.id);
    if problem.Some? {
      return;
    }
    problem := PathProblem(NamespaceProblem(u.namespace));
    if problem.Some? {
      return;
    }
    for i := 0 to |u.groups|
      invariant GroupsProblem(u.groups) == GroupsProblem(u.groups[i..])
    {
      problem := ValidateGroup(u.groups[i]);
      if problem.Some? {
        return;
      }
      assert u.groups[i..][1..] == u.groups[i + 1..];
    }
    return None;
  }

  /** The loop over an attribute map, for every iteration order Go may choose: only the verdict is determined. */
  method ValidateAttributes(attrs: map<string, AttrValue>, validIP: IPCheck) returns (safe: bool)
    ensures safe <==> SafeAttributes(attrs, validIP)
  {
    var pending := attrs.Keys;
    while pending != {}
      invariant pending <= attrs.Keys
      invariant forall name :: name in attrs && name !in pending ==> SafeName(name) && WellFormed(attrs[name], validIP)
      decreases pending
    {
      var name :| name in pending;
      var safeName := ValidateName(name);
      if !safeName {
        return false;
      }
      var problem := Validate(attrs[name], validIP);
      if problem.Some? {
        return false;
      }
      pending := pending - {name};
    }
    return true;
  }

  /** Request.Validate, down to the fields of every part; only the verdict on a map is determined. */
  method ValidateRequest(r: Request, validIP: IPCheck) returns (problem: Option<DomainError>)
    ensures problem == RequestProblem(r, validIP)
  {
    match r.principal {
      case NoPrincipal => return Some(PrincipalMissing);
      case UserPrincipal(user) => problem := ValidateUser(user);
      case GroupPrincipal(group) => problem := ValidateGroup(group);
    }
    if problem.Some? {
      return;
    }
    problem := ValidateGroup(Group(r.action.id, r.action.namespace));
    if problem.Some? {
      return;
    }
    var path := ValidateCedarPath(r.resource.kind.name);
    if path.Some? {
      return Some(BadPath(path.value));
    }
    if !r.resource.id.isSet {
      return Some(UnsetID);
    }
    var safe := ValidateEntityID(r.resource.id.value);
    if !safe {
      return Some(UnsafeID);
    }
    safe := ValidateAttributes(r.resource.attrs, validIP);
    return if safe then None else Some(BadAttributes);
  }

  // ---- Options ----

  /** A functional option: nil, or a function that configures the value or fails. */
  datatype Opt<!T> = NilOpt | Opt(apply: T -> Result<T, DomainError>)

  function ApplyAll<T>(value: T, options: seq<Opt<T>>): Result<T, DomainError> {
    if options == [] then Ok(value)
    else match options[0]
      case NilOpt => Err(NilOption)
      case Opt(apply) =>
        match apply(value)
        case Ok(configured) => ApplyAll(configured, options[1..])
        case Err(error) => Err(error)
  }

  /** The loop every constructor runs over its options. */
  method RunOptions<T>(initial: T, options: seq<Opt<T>>) returns (r: Result<T, DomainError>)
    ensures r == ApplyAll(initial, options)
  {
    var value := initial;
    for i := 0 to |options|
      invariant ApplyAll(initial, options) == ApplyAll(value, options[i..])
    {
      assert options[i..][1..] == options[i + 1..];
      if options[i].NilOpt? {
        return Err(NilOption);
      }
      var configured := options[i].apply(value);
      if configured.Err? {
        return Err(configured.error);
      }
      value := configured.value;
    }
    return Ok(value);
  }

  lemma {:induction false} ApplyConcat<T>(value: T, a: seq<Opt<T>>, b: seq<Opt<T>>)
    ensures ApplyAll(value, a + b) ==
            match ApplyAll(value, a)
            case Ok(configured) => ApplyAll(configured, b)
            case Err(error) => Err(error)
  {
    if a == [] {
      assert a + b == b;
    } else {
      assert (a + b)[1..] == a[1..] + b;
      if a[0].Opt? && a[0].apply(value).Ok? {
        ApplyConcat(a[0].apply(value).value, a[1..], b);
      }
    }
  }

  function Checked<T>(value: T, problem: Option<DomainError>): Result<T, DomainError> {
    if problem.Some? then Err(problem.value) else Ok(value)
  }

  function PlaceGroup(g: Group, namespace: Namespace): Result<Group, DomainError> {
    Checked(g.(namespace := namespace), PathProblem(NamespaceProblem(namespace)))
  }

  function PlaceUser(u: User, namespace: Namespace): Result<User, DomainError> {
    Checked(u.(namespace := namespace), PathProblem(NamespaceProblem(namespace)))
  }

  function PlaceAction(a: Action, namespace: Namespace): Result<Action, DomainError> {
    Checked(a.(namespace := namespace), PathProblem(NamespaceProblem(namespace)))
  }

  function AddGroups(u: User, groups: seq<Group>): Result<User, DomainError> {
    Checked(u.(groups := u.groups + groups), GroupsProblem(groups))
  }

  function GroupWithNamespace(namespace: Namespace): Opt<Group> {
    Opt((g: Group) => PlaceGroup(g, namespace))
  }

  function UserWithNamespace(namespace: Namespace): Opt<User> {
    Opt((u: User) => PlaceUser(u, namespace))
  }

  function ActionWithNamespace(namespace: Namespace): Opt<Action> {
    Opt((a: Action) => PlaceAction(a, namespace))
  }

  function UserWithGroups(groups: seq<Group>): Opt<User> {
    Opt((u: User) => AddGroups(u, groups))
  }

  function NamedGroups(names: seq<string>): Result<seq<Group>, DomainError> {
    if names == [] then Ok([])
    else match NewGroup(names[0], [])
      case Err(error) => Err(error)
      case Ok(group) =>
        match NamedGroups(names[1..])
        case Err(error) => Err(error)
        case Ok(groups) => Ok([group] + groups)
  }

  function UserWithGroupNames(names: seq<string>): Opt<User> {
    Opt((u: User) =>
          match NamedGroups(names)
          case Err(error) => Err(error)
          case Ok(groups) => Ok(u.(groups := u.groups + groups)))
  }

  function ResourceWithAttributes(attrs: map<string, AttrValue>, validIP: IPCheck): Opt<Resource> {
    Opt((r: Resource) => Checked(r.(attrs := r.attrs + attrs), AttributesProblem(attrs, validIP)))
  }

  // ---- Constructors ----

  function NewGroup(id: string, options: seq<Opt<Group>>): Result<Group, DomainError> {
    if !SafeID(id) then Err(UnsafeID)
    else match ApplyAll(Group(EntityID(id, true), GLOBAL), options)
      case Err(error) => Err(error)
      case Ok(group) => Checked(group, GroupProblem(group))
  }

  function NewUser(id: string, options: seq<Opt<User>>): Result<User, DomainError> {
    if !SafeID(id) then Err(UnsafeID)
    else match ApplyAll(User(EntityID(id, true), GLOBAL, []), options)
      case Err(error) => Err(error)
      case Ok(user) => Checked(user, UserProblem(user))
  }

  function NewAction(id: string, options: seq<Opt<Action>>): Result<Action, DomainError> {
    if !SafeID(id) then Err(UnsafeID)
    else match ApplyAll(Action(EntityID(id, true), GLOBAL), options)
      case Err(error) => Err(error)
      case Ok(action) => Checked(action, ActionProblem(action))
  }

  function NewResourceWithType(kind: EntityType, id: string, options: seq<Opt<Resource>>, validIP: IPCheck)
    : Result<Resource, DomainError>
  {
    if EntityTypeProblem(kind).Some? then Err(BadPath(EntityTypeProblem(kind).value))
    else if !SafeID(id) then Err(UnsafeID)
    else match ApplyAll(Resource(kind, EntityID(id, true), map[]), options)
      case Err(error) => Err(error)
      case Ok(resource) => Checked(resource, ResourceProblem(resource, validIP))
  }

  function NewResource(kind: string, id: string, options: seq<Opt<Resource>>, validIP: IPCheck)
    : Result<Resource, DomainError>
  {
    match NewEntityType(kind)
    case Err(problem) => Err(BadPath(problem))
    case Ok(entityType) => NewResourceWithType(entityType, id, options, validIP)
  }

  function NewRequest(principal: Principal, action: Action, resource: Resource, validIP: IPCheck)
    : Result<Request, DomainError>
  {
    var request := Request(principal, action, resource);
    Checked(request, RequestProblem(request, validIP))
  }

  // ---- What the constructors accept, said without options ----

  lemma {:induction false} GroupsProblemNoneIff(groups: seq<Group>)
    ensures GroupsProblem(groups).None? <==> forall g :: g in groups ==> GroupProblem(g).None?
  {
    if groups != [] {
      GroupsProblemNoneIff(groups[1..]);
      assert groups == [groups[0]] + groups[1..];
    }
  }

  lemma {:induction false} GroupsProblemConcat(a: seq<Group>, b: seq<Group>)
    ensures GroupsProblem(a + b) == FirstOf(GroupsProblem(a), GroupsProblem(b))
  {
    if a == [] {
      assert a + b == b;
    } else {
      assert (a + b)[1..] == a[1..] + b;
      GroupsProblemConcat(a[1..], b);
    }
  }

  lemma NewGroupIs(id: string, namespace: Namespace)
    ensures var g := Group(EntityID(id, true), namespace);
            NewGroup(id, [GroupWithNamespace(namespace)]) == Checked(g, GroupProblem(g))
  {
    var initial := Group(EntityID(id, true), GLOBAL);
    assert ApplyAll(initial, [GroupWithNamespace(namespace)]) ==
           Checked(Group(EntityID(id, true), namespace), PathProblem(NamespaceProblem(namespace)));
  }

  lemma NewActionIs(id: string, namespace: Namespace)
    ensures var a := Action(EntityID(id, true), namespace);
            NewAction(id, [ActionWithNamespace(namespace)]) == Checked(a, ActionProblem(a))
  {
    var initial := Action(EntityID(id, true), GLOBAL);
    assert ApplyAll(initial, [ActionWithNamespace(namespace)]) ==
           Checked(Action(EntityID(id, true), namespace), PathProblem(NamespaceProblem(namespace)));
  }

  lemma NewUserIs(id: string, namespace: Namespace, groups: seq<Group>)
    ensures var u := User(EntityID(id, true), namespace, groups);
            NewUser(id, [UserWithNamespace(namespace), UserWithGroups(groups)]) == Checked(u, UserProblem(u))
  {
    var initial := User(EntityID(id, true), GLOBAL, []);
    var options := [UserWithNamespace(namespace), UserWithGroups(groups)];
    assert options[1..] == [UserWithGroups(groups)];
    var named := initial.(namespace := namespace);
    assert named.groups + groups == groups;
    assert ApplyAll(named, options[1..]) == Checked(User(EntityID(id, true), namespace, groups), GroupsProblem(groups));
  }

  lemma NewResourceIs(kind: EntityType, id: string, attrs: map<string, AttrValue>, validIP: IPCheck)
    ensures var r := Resource(kind, EntityID(id, true), attrs);
            NewResourceWithType(kind, id, [ResourceWithAttributes(attrs, validIP)], validIP)
            == Checked(r, ResourceProblem(r, validIP))
  {
    var initial := Resource(kind, EntityID(id, true), map[]);
    assert initial.attrs + attrs == attrs;
    assert ApplyAll(initial, [ResourceWithAttributes(attrs, validIP)]) ==
           Checked(Resource(kind, EntityID(id, true), attrs), AttributesProblem(attrs, validIP));
  }

  /** Whatever the options do, an accepted value is valid; so a request assembled from accepted parts is valid. */
  lemma AcceptedPartsMakeRequest(principal: Principal, action: Action, resource: Resource, validIP: IPCheck)
    requires || (exists id, options :: principal.UserPrincipal? && NewUser(id, options) == Ok(principal.user))
             || (exists id, options :: principal.GroupPrincipal? && NewGroup(id, options) == Ok(principal.group))
    requires exists id, options :: NewAction(id, options) == Ok(action)
    requires exists kind, id, options :: NewResource(kind, id, options, validIP) == Ok(resource)
    ensures NewRequest(principal, action, resource, validIP) == Ok(Request(principal, action, resource))
  {
  }
}
