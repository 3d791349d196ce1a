/** Decoding: the UnmarshalJSON methods, which rebuild every value through the validating constructors.
    None stands for a decoding error. */
module Decode {
  import opened Results
  import opened CedarPath
  import opened AttrValues
  import opened RequestDomain
  import opened Json
  import opened Batches

  function ParseTag(name: string): AttrType {
    if name == "String" then StringType
    else if name == "Bool" then BoolType
    else if name == "Long" then LongType
    else if name == "Ip" then IpType
    else if name == "Set" then SetType
    else OtherType(name)
  }

  /** The type field: a Go string, which null and absence leave empty. */
  function DecodeTag(fields: map<string, JSON>): Option<AttrType> {
    match Field(fields, "type")
    case None => Some(ParseTag(""))
    case Some(JStr(name)) => Some(ParseTag(name))
    case Some(_) => None
  }

  function DecodeAttr(j: JSON, validIP: IPCheck): Option<AttrValue>
    decreases j, 1
  {
    if !j.JObj? || "value" !in j.fields then None
    else match DecodeTag(j.fields)
      case None => None
      case Some(tag) =>
        match DecodePayload(tag, j.fields["value"], validIP)
        case None => None
        case Some(payload) =>
          var v := AttrValue(tag, payload);
          if WellFormed(v, validIP) then Some(v) else None
  }

  /** The value field for each tag; null is rejected for every one of them. */
  function DecodePayload(tag: AttrType, value: JSON, validIP: IPCheck): Option<Payload>
    decreases value, 2
  {
    match tag
    case StringType => if value.JStr? then Some(Str(value.s)) else None
    case IpType => if value.JStr? then Some(Str(value.s)) else None
    case BoolType => if value.JBool? then Some(Boolean(value.b)) else None
    case LongType =>
      if value.JInt? && -0x8000_0000_0000_0000 <= value.n < 0x8000_0000_0000_0000 then Some(Long(value.n)) else None
    case SetType =>
      if !value.JArr? then None
      else (match DecodeAttrs(value.items, validIP)
            case None => None
            case Some(values) => Some(Elements(values)))
    case OtherType(_) => None
  }

  function DecodeAttrs(items: seq<JSON>, validIP: IPCheck): Option<seq<AttrValue>>
    decreases items, 2
  {
    if items == [] then Some([])
    else match (DecodeAttr(items[0], validIP), DecodeAttrs(items[1..], validIP))
      case (Some(first), Some(rest)) => Some([first] + rest)
      case _ => None
  }

  function AttrDecoder(validIP: IPCheck): JSON -> Option<AttrValue> {
    j => DecodeAttr(j, validIP)
  }

  /** A map[string]AttrValue field: absent and null leave it nil, which is as good as empty. */
  function DecodeAttrMap(field: Option<JSON>, validIP: IPCheck): Option<map<string, AttrValue>> {
    match field
    case None => Some(map[])
    case Some(JObj(entries)) => DecodeEntries(entries, AttrDecoder(validIP))
    case Some(_) => None
  }

  /** A required string field. */
  function DecodeString(field: Option<JSON>): Option<string> {
    match field
    case Some(JStr(s)) => Some(s)
    case _ => None
  }

  /** A required namespace field: an array of segments. */
  function DecodeNamespace(field: Option<JSON>): Option<Namespace> {
    match field
    case Some(JArr(items)) =>
      (match DecodeStrings(items)
       case None => None
       case Some(segments) => ToOption(NewNamespace(segments)))
    case _ => None
  }

  function ToOption<T, E>(r: Result<T, E>): Option<T> {
    match r
    case Ok(value) => Some(value)
    case Err(_) => None
  }

  function DecodeGroup(j: JSON): Option<Group> {
    match StructFields(j)
    case None => None
    case Some(fields) =>
      match (DecodeString(Field(fields, "id")), DecodeNamespace(Field(fields, "namespace")))
      case (Some(id), Some(namespace)) => ToOption(NewGroup(id, [GroupWithNamespace(namespace)]))
      case _ => None
  }

  function DecodeGroups(field: Option<JSON>): Option<seq<Group>> {
    match field
    case Some(JArr(items)) => DecodeEach(items, DecodeGroup)
    case _ => None
  }

  /** Every decoder runs its validating constructor once all required fields are present. */
  function MakeUser(id: Option<string>, namespace: Option<Namespace>, groups: Option<seq<Group>>): Option<User> {
    match (id, namespace, groups)
    case (Some(id), Some(namespace), Some(groups)) =>
      ToOption(NewUser(id, [UserWithNamespace(namespace), UserWithGroups(groups)]))
    case _ => None
  }

  function DecodeUser(j: JSON): Option<User> {
    match StructFields(j)
    case None => None
    case Some(fields) =>
      MakeUser(DecodeString(Field(fields, "id")), DecodeNamespace(Field(fields, "namespace")),
               DecodeGroups(Field(fields, "groups")))
  }

  /** Exactly one variant, named by the only key of the object. */
  function DecodePrincipal(j: JSON): Option<Principal> {
    if !j.JObj? || |j.fields| != 1 then None
    else if "User" in j.fields then
      match DecodeUser(j.fields["User"])
      case None => None
      case Some(user) => Some(UserPrincipal(user))
    else if "Group" in j.fields then
      match DecodeGroup(j.fields["Group"])
      case None => None
      case Some(group) => Some(GroupPrincipal(group))
    else None
  }

  function DecodeAction(j: JSON): Option<Action> {
    match StructFields(j)
    case None => None
    case Some(fields) =>
      match (DecodeString(Field(fields, "id")), DecodeNamespace(Field(fields, "namespace")))
      case (Some(id), Some(namespace)) => ToOption(NewAction(id, [ActionWithNamespace(namespace)]))
      case _ => None
  }

  function MakeResource(kind: Option<string>, id: Option<string>, attrs: Option<map<string, AttrValue>>, validIP: IPCheck)
    : Option<Resource>
  {
    match (kind, id, attrs)
    case (Some(kind), Some(id), Some(attrs)) =>
      (match NewEntityType(kind)
       case Err(_) => None
       case Ok(entityType) =>
         ToOption(NewResourceWithType(entityType, id, [ResourceWithAttributes(attrs, validIP)], validIP)))
    case _ => None
  }

  function DecodeResource(j: JSON, validIP: IPCheck): Option<Resource> {
    match StructFields(j)
    case None => None
    case Some(fields) =>
      MakeResource(DecodeString(Field(fields, "kind")), DecodeString(Field(fields, "id")),
                   DecodeAttrMap(Field(fields, "attrs"), validIP), validIP)
  }

  // ---- Batch items ----

  function WithRequestID(id: string): Opt<AuthRequest> {
    Opt((r: AuthRequest) => if SafeName(id) then Ok(r.(id := RequestID(id, true))) else Err(UnsafeID))
  }

  function WithContext(context: map<string, AttrValue>, validIP: IPCheck): Opt<AuthRequest> {
    Opt((r: AuthRequest) => Checked(r.(context := context), AttributesProblem(context, validIP)))
  }

  function NewAuthRequest(request: Request, options: seq<Opt<AuthRequest>>, validIP: IPCheck)
    : Result<AuthRequest, DomainError>
  {
    match ApplyAll(AuthRequest(NO_ID, map[], request), options)
    case Err(error) => Err(error)
    case Ok(r) =>
      if r.id.isSet && !SafeName(r.id.value) then Err(UnsafeID)
      else Checked(r, FirstOf(AttributesProblem(r.context, validIP), RequestProblem(r.request, validIP)))
  }

  /** An optional string field: absent and null mean no value, any other type is an error. */
  predicate StringOrNil(field: Option<JSON>) {
    field.None? || field.value.JStr?
  }

  /** The decoded fields of a batch item. An absent principal, action or resource is a zero value, which never
      validates, so it counts as an error. */
  datatype Parts = Parts(id: Option<string>, principal: Principal, action: Action, resource: Resource,
                         context: map<string, AttrValue>)

  function MakeAuthRequest(parts: Parts, validIP: IPCheck): Option<AuthRequest> {
    match NewRequest(parts.principal, parts.action, parts.resource, validIP)
    case Err(_) => None
    case Ok(request) =>
      var options := (if parts.id.Some? then [WithRequestID(parts.id.value)] else [])
                     + (if parts.context != map[] then [WithContext(parts.context, validIP)] else []);
      ToOption(NewAuthRequest(request, options, validIP))
  }

  function DecodeParts(fields: map<string, JSON>, validIP: IPCheck): Option<Parts> {
    if !StringOrNil(Field(fields, "id")) then None
    else if "principal" !in fields || "action" !in fields || "resource" !in fields then None
    else
      match (DecodePrincipal(fields["principal"]), DecodeAction(fields["action"]),
             DecodeResource(fields["resource"], validIP), DecodeAttrMap(Field(fields, "context"), validIP))
      case (Some(principal), Some(action), Some(resource), Some(context)) =>
        Some(Parts(DecodeString(Field(fields, "id")), principal, action, resource, context))
      case _ => None
  }

  function DecodeAuthRequest(j: JSON, validIP: IPCheck): Option<AuthRequest> {
    match StructFields(j)
    case None => None
    case Some(fields) => FromParts(DecodeParts(fields, validIP), validIP)
  }

  function FromParts(parts: Option<Parts>, validIP: IPCheck): Option<AuthRequest> {
    match parts
    case None => None
    case Some(parts) => MakeAuthRequest(parts, validIP)
  }

  function AuthRequestDecoder(validIP: IPCheck): JSON -> Option<AuthRequest> {
    j => DecodeAuthRequest(j, validIP)
  }

  /** The requests array is required; the decoded batch must validate, which rejects duplicate IDs. */
  ghost function DecodeBatch(j: JSON, validIP: IPCheck): Option<Batch> {
    match StructFields(j)
    case None => None
    case Some(fields) =>
      match Field(fields, "requests")
      case Some(JArr(items)) =>
        (match DecodeEach(items, AuthRequestDecoder(validIP))
         case None => None
         case Some(batch) => if BatchValid(batch, validIP) then Some(batch) else None)
      case _ => None
  }
}
