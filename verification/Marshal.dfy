/** The simple encoding: nested MarshalJSON methods, each of which validates its value first.
    None stands for an encoding error. */
module Marshal {
  import opened Results
  import opened CedarPath
  import opened AttrValues
  import opened RequestDomain
  import opened Json
  import opened Batches

  function TagName(tag: AttrType): string {
    match tag
    case StringType => "String"
    case BoolType => "Bool"
    case LongType => "Long"
    case IpType => "Ip"
    case SetType => "Set"
    case OtherType(name) => name
  }

  function EncodeAttr(v: AttrValue, validIP: IPCheck): Option<JSON>
    decreases v, 1
  {
    if !WellFormed(v, validIP) then None
    else match EncodePayload(v.value, validIP)
      case None => None
      case Some(value) => Some(JObj(map["type" := JStr(TagName(v.typeName)), "value" := value]))
  }

  /** encoding/json on a value of type any: slices call MarshalJSON on every element, and a nil slice is null. */
  function EncodePayload(payload: Payload, validIP: IPCheck): Option<JSON>
    decreases payload, 0
  {
    match payload
    case NoPayload => Some(JNull)
    case Str(s) => Some(JStr(s))
    case Boolean(b) => Some(JBool(b))
    case Long(n) => Some(JInt(n))
    case NilElements => Some(JNull)
    case Elements(values) =>
      match EncodeAttrs(values, validIP)
      case None => None
      case Some(items) => Some(JArr(items))
  }

  function EncodeAttrs(values: seq<AttrValue>, validIP: IPCheck): Option<seq<JSON>>
    decreases values, 2
  {
    if values == [] then Some([])
    else match (EncodeAttr(values[0], validIP), EncodeAttrs(values[1..], validIP))
      case (Some(first), Some(rest)) => Some([first] + rest)
      case _ => None
  }

  function AttrEncoder(validIP: IPCheck): AttrValue -> Option<JSON> {
    v => EncodeAttr(v, validIP)
  }

  function EncodeAttrMap(attrs: map<string, AttrValue>, validIP: IPCheck): Option<JSON> {
    EncodeEntries(attrs, AttrEncoder(validIP))
  }

  function EncodeNamespace(n: Namespace): Option<JSON> {
    if NamespaceProblem(n).Some? then None else Some(Strings(Segments(n)))
  }

  function EncodeGroup(g: Group): Option<JSON> {
    if GroupProblem(g).Some? then None
    else match EncodeNamespace(g.namespace)
      case None => None
      case Some(namespace) => Some(JObj(map["id" := JStr(g.id.value), "namespace" := namespace]))
  }

  function EncodeUser(u: User): Option<JSON> {
    if UserProblem(u).Some? then None
    else match (EncodeNamespace(u.namespace), EncodeEach(u.groups, EncodeGroup))
      case (Some(namespace), Some(groups)) =>
        Some(JObj(map["id" := JStr(u.id.value), "namespace" := namespace, "groups" := JArr(groups)]))
      case _ => None
  }

  function EncodePrincipal(p: Principal): Option<JSON> {
    match p
    case NoPrincipal => None
    case UserPrincipal(user) =>
      (match EncodeUser(user)
       case None => None
       case Some(value) => Some(JObj(map["User" := value])))
    case GroupPrincipal(group) =>
      (match EncodeGroup(group)
       case None => None
       case Some(value) => Some(JObj(map["Group" := value])))
  }

  function EncodeAction(a: Action): Option<JSON> {
    if ActionProblem(a).Some? then None
    else match EncodeNamespace(a.namespace)
      case None => None
      case Some(namespace) => Some(JObj(map["id" := JStr(a.id.value), "namespace" := namespace]))
  }

  function EncodeResource(r: Resource, validIP: IPCheck): Option<JSON> {
    if ResourceProblem(r, validIP).Some? then None
    else match EncodeAttrMap(r.attrs, validIP)
      case None => None
      case Some(attrs) =>
        Some(JObj(map["kind" := JStr(r.kind.name), "id" := JStr(r.id.value)] + OmitIf(r.attrs == map[], "attrs", attrs)))
  }

  function EncodeAuthRequest(r: AuthRequest, validIP: IPCheck): Option<JSON> {
    if !AuthRequestValid(r, validIP) then None
    else match (EncodeAttrMap(r.context, validIP), EncodePrincipal(r.request.principal), EncodeAction(r.request.action),
                EncodeResource(r.request.resource, validIP))
      case (Some(context), Some(principal), Some(action), Some(resource)) =>
        Some(JObj(OmitIf(r.id.value == "", "id", JStr(r.id.value)) + OmitIf(r.context == map[], "context", context)
                  + map["principal" := principal, "action" := action, "resource" := resource]))
      case _ => None
  }

  function AuthRequestEncoder(validIP: IPCheck): AuthRequest -> Option<JSON> {
    r => EncodeAuthRequest(r, validIP)
  }

  function EncodeBatch(batch: Batch, validIP: IPCheck): Option<JSON> {
    match EncodeEach(batch, AuthRequestEncoder(validIP))
    case None => None
    case Some(items) => Some(JObj(map["requests" := JArr(items)]))
  }

  // ---- Valid values encode ----

  lemma {:induction false} WellFormedEncodes(v: AttrValue, validIP: IPCheck)
    ensures EncodeAttr(v, validIP).Some? <==> WellFormed(v, validIP)
    decreases v, 1
  {
    if WellFormed(v, validIP) && v.value.Elements? {
      AllWellFormedEncode(v.value.values, validIP);
    }
  }

  lemma {:induction false} AllWellFormedEncode(values: seq<AttrValue>, validIP: IPCheck)
    ensures EncodeAttrs(values, validIP).Some? <==> forall v :: v in values ==> WellFormed(v, validIP)
    decreases values, 2
  {
    if values != [] {
      WellFormedEncodes(values[0], validIP);
      AllWellFormedEncode(values[1..], validIP);
      assert values == [values[0]] + values[1..];
    }
  }

  lemma AttrMapEncodes(attrs: map<string, AttrValue>, validIP: IPCheck)
    requires SafeAttributes(attrs, validIP)
    ensures EncodeAttrMap(attrs, validIP).Some?
  {
    forall name | name in attrs
      ensures AttrEncoder(validIP)(attrs[name]).Some?
    {
      WellFormedEncodes(attrs[name], validIP);
    }
  }

  lemma PrincipalEncodes(p: Principal)
    ensures EncodePrincipal(p).Some? <==> PrincipalProblem(p).None?
  {
    if p.UserPrincipal? {
      GroupsProblemNoneIff(p.user.groups);
    }
  }

  /** Encoding succeeds on exactly the values that Validate accepts. */
  lemma AuthRequestEncodesIff(r: AuthRequest, validIP: IPCheck)
    ensures EncodeAuthRequest(r, validIP).Some? <==> AuthRequestValid(r, validIP)
  {
    if AuthRequestValid(r, validIP) {
      AttrMapEncodes(r.context, validIP);
      AttrMapEncodes(r.request.resource.attrs, validIP);
      PrincipalEncodes(r.request.principal);
    }
  }
}
