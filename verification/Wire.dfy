/** The fast encoding: a validated batch is converted once to plain wire structs, which encoding/json prints
    without calling MarshalJSON on the domain types again. */
module Wire {
  import opened Results
  import opened CedarPath
  import opened AttrValues
  import opened RequestDomain
  import opened Json
  import opened Batches
  import opened Marshal

  datatype GroupWire = GroupWire(id: string, namespace: seq<string>)

  datatype UserWire = UserWire(id: string, namespace: seq<string>, groups: seq<GroupWire>)

  datatype PrincipalWire = PrincipalWire(user: Option<UserWire>, group: Option<GroupWire>)

  datatype ActionWire = ActionWire(id: string, namespace: seq<string>)

  /** A set becomes a fresh, never nil slice of wire values; any other payload is passed on as it is. */
  datatype WirePayload = Raw(payload: Payload) | WireSet(values: seq<AttrValueWire>)

  datatype AttrValueWire = AttrValueWire(typeName: AttrType, value: WirePayload)

  datatype ResourceWire = ResourceWire(kind: string, id: string, attrs: map<string, AttrValueWire>)

  datatype AuthRequestWire = AuthRequestWire(
    id: string,
    context: map<string, AttrValueWire>,
    principal: PrincipalWire,
    action: ActionWire,
    resource: ResourceWire)

  // ---- Conversions ----

  function SetElements(payload: Payload): (values: seq<AttrValue>)
    ensures forall v :: v in values ==> v < payload
  {
    if payload.Elements? then payload.values else []
  }

  function ToAttrValueWire(v: AttrValue): AttrValueWire
    decreases v
  {
    if v.typeName != SetType then AttrValueWire(v.typeName, Raw(v.value))
    else
      var values := SetElements(v.value);
      AttrValueWire(SetType, WireSet(seq(|values|, i requires 0 <= i < |values| => ToAttrValueWire(values[i]))))
  }

  method BuildAttrValueWire(v: AttrValue) returns (wire: AttrValueWire)
    ensures wire == ToAttrValueWire(v)
    decreases v
  {
    if v.typeName != SetType {
      return AttrValueWire(v.typeName, Raw(v.value));
    }
    var values := SetElements(v.value);
    var items: seq<AttrValueWire> := [];
    for i := 0 to |values|
      invariant |items| == i && forall j :: 0 <= j < i ==> items[j] == ToAttrValueWire(values[j])
    {
      assert values[i] in values;
      var item := BuildAttrValueWire(values[i]);
      items := items + [item];
    }
    assert items == WireOf(values);
    return AttrValueWire(SetType, WireSet(items));
  }

  function WireOf(values: seq<AttrValue>): seq<AttrValueWire> {
    seq(|values|, i requires 0 <= i < |values| => ToAttrValueWire(values[i]))
  }

  function ToAttrMapWire(attrs: map<string, AttrValue>): map<string, AttrValueWire> {
    map name | name in attrs :: ToAttrValueWire(attrs[name])
  }

  /** The result does not depend on the order in which the map is ranged over. */
  method BuildAttrMapWire(attrs: map<string, AttrValue>) returns (wire: map<string, AttrValueWire>)
    ensures wire == ToAttrMapWire(attrs)
  {
    wire := map[];
    var pending := attrs.Keys;
    while pending != {}
      invariant pending <= attrs.Keys
      invariant wire.Keys == attrs.Keys - pending
      invariant forall name :: name in wire ==> wire[name] == ToAttrValueWire(attrs[name])
      decreases pending
    {
      var name :| name in pending;
      var value := BuildAttrValueWire(attrs[name]);
      wire := wire[name := value];
      pending := pending - {name};
    }
  }

  function ToGroupWire(g: Group): GroupWire {
    GroupWire(g.id.value, Segments(g.namespace))
  }

  function ToGroupWires(groups: seq<Group>): seq<GroupWire> {
    seq(|groups|, i requires 0 <= i < |groups| => ToGroupWire(groups[i]))
  }

  function ToUserWire(u: User): UserWire {
    UserWire(u.id.value, Segments(u.namespace), ToGroupWires(u.groups))
  }

  method BuildUserWire(u: User) returns (wire: UserWire)
    ensures wire == ToUserWire(u)
  {
    var groups: seq<GroupWire> := [];
    for i := 0 to |u.groups|
      invariant |groups| == i && forall j :: 0 <= j < i ==> groups[j] == ToGroupWire(u.groups[j])
    {
      groups := groups + [ToGroupWire(u.groups[i])];
    }
    assert groups == ToGroupWires(u.groups);
    return UserWire(u.id.value, Segments(u.namespace), groups);
  }

  function ToPrincipalWire(p: Principal): PrincipalWire {
    match p
    case UserPrincipal(user) => PrincipalWire(Some(ToUserWire(user)), None)
    case GroupPrincipal(group) => PrincipalWire(None, Some(ToGroupWire(group)))
    case NoPrincipal => PrincipalWire(None, None)
  }

  function ToActionWire(a: Action): ActionWire {
    ActionWire(a.id.value, Segments(a.namespace))
  }

  function ToResourceWire(r: Resource): ResourceWire {
    ResourceWire(r.kind.name, r.id.value, ToAttrMapWire(r.attrs))
  }

  function ToAuthRequestWire(r: AuthRequest): AuthRequestWire {
    AuthRequestWire(r.id.value, ToAttrMapWire(r.context), ToPrincipalWire(r.request.principal),
                    ToActionWire(r.request.action), ToResourceWire(r.request.resource))
  }

  function ToAuthorizeRequestWire(batch: Batch): seq<AuthRequestWire> {
    seq(|batch|, i requires 0 <= i < |batch| => ToAuthRequestWire(batch[i]))
  }

  method BuildAuthorizeRequestWire(batch: Batch) returns (wire: seq<AuthRequestWire>)
    ensures wire == ToAuthorizeRequestWire(batch)
  {
    wire := [];
    for i := 0 to |batch|
      invariant |wire| == i && forall j :: 0 <= j < i ==> wire[j] == ToAuthRequestWire(batch[j])
    {
      wire := wire + [ToAuthRequestWire(batch[i])];
    }
  }

  // ---- encoding/json on the wire structs ----

  function PrintAttr(w: AttrValueWire, validIP: IPCheck): Option<JSON>
    decreases w
  {
    var value :=
      match w.value
      case Raw(payload) => EncodePayload(payload, validIP)
      case WireSet(values) =>
        (match PrintAttrs(values, validIP)
         case None => None
         case Some(items) => Some(JArr(items)));
    if value.None? then None
    else Some(JObj(map["type" := JStr(TagName(w.typeName)), "value" := value.value]))
  }

  function PrintAttrs(values: seq<AttrValueWire>, validIP: IPCheck): Option<seq<JSON>>
    decreases values
  {
    if values == [] then Some([])
    else match (PrintAttr(values[0], validIP), PrintAttrs(values[1..], validIP))
      case (Some(first), Some(rest)) => Some([first] + rest)
      case _ => None
  }

  function AttrPrinter(validIP: IPCheck): AttrValueWire -> Option<JSON> {
    w => PrintAttr(w, validIP)
  }

  function PrintAttrMap(attrs: map<string, AttrValueWire>, validIP: IPCheck): Option<JSON> {
    EncodeEntries(attrs, AttrPrinter(validIP))
  }

  function PrintGroup(w: GroupWire): JSON {
    JObj(map["id" := JStr(w.id), "namespace" := Strings(w.namespace)])
  }

  function PrintGroups(groups: seq<GroupWire>): seq<JSON> {
    seq(|groups|, i requires 0 <= i < |groups| => PrintGroup(groups[i]))
  }

  function PrintUser(w: UserWire): JSON {
    JObj(map["id" := JStr(w.id), "namespace" := Strings(w.namespace), "groups" := JArr(PrintGroups(w.groups))])
  }

  function PrintPrincipal(w: PrincipalWire): JSON {
    JObj((if w.user.None? then map[] else map["User" := PrintUser(w.user.value)])
         + (if w.group.None? then map[] else map["Group" := PrintGroup(w.group.value)]))
  }

  function PrintAction(w: ActionWire): JSON {
    JObj(map["id" := JStr(w.id), "namespace" := Strings(w.namespace)])
  }

  function PrintResource(w: ResourceWire, validIP: IPCheck): Option<JSON> {
    match PrintAttrMap(w.attrs, validIP)
    case None => None
    case Some(attrs) =>
      Some(JObj(map["kind" := JStr(w.kind), "id" := JStr(w.id)] + OmitIf(w.attrs == map[], "attrs", attrs)))
  }

  function PrintAuthRequest(w: AuthRequestWire, validIP: IPCheck): Option<JSON> {
    match (PrintAttrMap(w.context, validIP), PrintResource(w.resource, validIP))
    case (Some(context), Some(resource)) =>
      Some(JObj(OmitIf(w.id == "", "id", JStr(w.id)) + OmitIf(w.context == map[], "context", context)
                + map["principal" := PrintPrincipal(w.principal), "action" := PrintAction(w.action),
                      "resource" := resource]))
    case _ => None
  }

  function AuthRequestPrinter(validIP: IPCheck): AuthRequestWire -> Option<JSON> {
    w => PrintAuthRequest(w, validIP)
  }

  function PrintBatch(requests: seq<AuthRequestWire>, validIP: IPCheck): Option<JSON> {
    match EncodeEach(requests, AuthRequestPrinter(validIP))
    case None => None
    case Some(items) => Some(JObj(map["requests" := JArr(items)]))
  }

  // ---- The fast encoding refines the simple one ----

  predicate AllNoNilSets(values: seq<AttrValue>) {
    values == [] || (NoNilSets(values[0]) && AllNoNilSets(values[1..]))
  }

  lemma {:induction false} AllNoNilSetsIff(values: seq<AttrValue>)
    ensures AllNoNilSets(values) <==> forall v :: v in values ==> NoNilSets(v)
  {
    if values != [] {
      AllNoNilSetsIff(values[1..]);
      assert AllNoNilSets(values) <==> NoNilSets(values[0]) && AllNoNilSets(values[1..]);
      forall v | v in values && AllNoNilSets(values)
        ensures NoNilSets(v)
      {
        assert v == values[0] || v in values[1..];
      }
      assert forall v :: v in values[1..] ==> v in values;
    }
  }

  /** On one value: the same JSON exactly when no set inside is a nil slice. */
  lemma {:induction false} SameAttrIff(v: AttrValue, validIP: IPCheck)
    requires EncodeAttr(v, validIP).Some?
    ensures PrintAttr(ToAttrValueWire(v), validIP).Some?
    ensures PrintAttr(ToAttrValueWire(v), validIP).value == EncodeAttr(v, validIP).value <==> NoNilSets(v)
    decreases v, 1
  {
    if v.value.Elements? {
      var values := v.value.values;
      SameAttrsIff(values, validIP);
      AllNoNilSetsIff(values);
      assert Children(v) == values;
      var simple, fast := JArr(EncodeAttrs(values, validIP).value), JArr(PrintAttrs(WireOf(values), validIP).value);
      assert EncodeAttr(v, validIP) == Some(JObj(map["type" := JStr("Set"), "value" := simple]));
      assert PrintAttr(ToAttrValueWire(v), validIP) == Some(JObj(map["type" := JStr("Set"), "value" := fast])) by {
        assert ToAttrValueWire(v) == AttrValueWire(SetType, WireSet(WireOf(values)));
      }
      SameValueField(simple, fast);
    } else if v.value.NilElements? {
      SameValueField(JNull, JArr([]));
    }
  }

  lemma SameValueField(a: JSON, b: JSON)
    ensures JObj(map["type" := JStr("Set"), "value" := a]) == JObj(map["type" := JStr("Set"), "value" := b]) <==> a == b
  {
    assert map["type" := JStr("Set"), "value" := a]["value"] == a;
    assert map["type" := JStr("Set"), "value" := b]["value"] == b;
  }

  lemma {:induction false} SameAttrsIff(values: seq<AttrValue>, validIP: IPCheck)
    requires EncodeAttrs(values, validIP).Some?
    ensures PrintAttrs(WireOf(values), validIP).Some?
    ensures PrintAttrs(WireOf(values), validIP).value == EncodeAttrs(values, validIP).value <==> AllNoNilSets(values)
    decreases values, 2
  {
    if values != [] {
      SameAttrIff(values[0], validIP);
      SameAttrsIff(values[1..], validIP);
      assert WireOf(values)[1..] == WireOf(values[1..]);
      SameConsIff(PrintAttr(ToAttrValueWire(values[0]), validIP).value, PrintAttrs(WireOf(values[1..]), validIP).value,
                  EncodeAttr(values[0], validIP).value, EncodeAttrs(values[1..], validIP).value);
    }
  }

  lemma SameConsIff<T>(a: T, s: seq<T>, b: T, t: seq<T>)
    ensures [a] + s == [b] + t <==> a == b && s == t
  {
    assert ([a] + s)[0] == a && ([a] + s)[1..] == s;
    assert ([b] + t)[0] == b && ([b] + t)[1..] == t;
  }
}
