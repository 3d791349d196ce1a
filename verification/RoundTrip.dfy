/** Decoding undoes encoding on every valid batch, and decoding yields nothing but valid batches. */
module RoundTrip {
  import opened Results
  import opened CedarPath
  import opened AttrValues
  import opened RequestDomain
  import opened Json
  import opened Batches
  import opened Marshal
  import opened Decode
  import opened Wire
  import opened WireRefinement

  // ---- Attribute values ----

  lemma ParseTagOfName(tag: AttrType)
    requires !tag.OtherType?
    ensures ParseTag(TagName(tag)) == tag
  {
    assert "Bool" != "String" && "Long" != "String" && "Ip" != "String" && "Set" != "String";
    assert "Long"[0] != "Bool"[0];
    assert |"Ip"| == 2 && |"Set"| == 3;
  }

  lemma {:induction false} AttrRoundTrip(v: AttrValue, validIP: IPCheck)
    requires WellFormed(v, validIP) && NoNilSets(v)
    ensures EncodeAttr(v, validIP).Some? && DecodeAttr(EncodeAttr(v, validIP).value, validIP) == Some(v)
    decreases v, 1
  {
    WellFormedEncodes(v, validIP);
    ParseTagOfName(v.typeName);
    if v.value.Elements? {
      assert Children(v) == v.value.values;
      AttrsRoundTrip(v.value.values, validIP);
    }
    var value := EncodePayload(v.value, validIP).value;
    var j := JObj(map["type" := JStr(TagName(v.typeName)), "value" := value]);
    assert EncodeAttr(v, validIP) == Some(j);
    assert Field(j.fields, "type") == Some(JStr(TagName(v.typeName)));
    assert DecodePayload(v.typeName, value, validIP) == Some(v.value);
  }

  lemma {:induction false} AttrsRoundTrip(values: seq<AttrValue>, validIP: IPCheck)
    requires forall v :: v in values ==> WellFormed(v, validIP) && NoNilSets(v)
    ensures EncodeAttrs(values, validIP).Some? && DecodeAttrs(EncodeAttrs(values, validIP).value, validIP) == Some(values)
    decreases values, 2
  {
    if values != [] {
      AttrRoundTrip(values[0], validIP);
      AttrsRoundTrip(values[1..], validIP);
      var first, rest := EncodeAttr(values[0], validIP).value, EncodeAttrs(values[1..], validIP).value;
      assert EncodeAttrs(values, validIP) == Some([first] + rest);
      assert ([first] + rest)[1..] == rest;
      assert values == [values[0]] + values[1..];
    }
  }

  lemma {:induction false} DecodedAttrIsBuilt(j: JSON, validIP: IPCheck)
    requires DecodeAttr(j, validIP).Some?
    ensures WellFormed(DecodeAttr(j, validIP).value, validIP) && NoNilSets(DecodeAttr(j, validIP).value)
    decreases j, 1
  {
    var v := DecodeAttr(j, validIP).value;
    if v.value.Elements? {
      DecodedAttrsAreBuilt(j.fields["value"].items, validIP);
    }
  }

  lemma {:induction false} DecodedAttrsAreBuilt(items: seq<JSON>, validIP: IPCheck)
    requires DecodeAttrs(items, validIP).Some?
    ensures forall v :: v in DecodeAttrs(items, validIP).value ==> NoNilSets(v)
    decreases items, 2
  {
    if items != [] {
      DecodedAttrIsBuilt(items[0], validIP);
      DecodedAttrsAreBuilt(items[1..], validIP);
    }
  }

  lemma AttrMapRoundTrip(attrs: map<string, AttrValue>, validIP: IPCheck)
    requires SafeAttributes(attrs, validIP) && NoNilAttrs(attrs)
    ensures EncodeAttrMap(attrs, validIP).Some?
    ensures DecodeAttrMap(EncodeAttrMap(attrs, validIP), validIP) == Some(attrs)
  {
    forall name | name in attrs
      ensures var encoded := AttrEncoder(validIP)(attrs[name]);
              encoded.Some? && AttrDecoder(validIP)(encoded.value) == Some(attrs[name])
    {
      AttrRoundTrip(attrs[name], validIP);
    }
    EntriesRoundTrip(attrs, AttrEncoder(validIP), AttrDecoder(validIP));
  }

  lemma DecodedAttrMapIsBuilt(field: Option<JSON>, validIP: IPCheck)
    requires DecodeAttrMap(field, validIP).Some?
    ensures NoNilAttrs(DecodeAttrMap(field, validIP).value)
  {
    var attrs := DecodeAttrMap(field, validIP).value;
    forall name | name in attrs
      ensures NoNilSets(attrs[name])
    {
      assert AttrDecoder(validIP)(field.value.fields[name]) == Some(attrs[name]);
      DecodedAttrIsBuilt(field.value.fields[name], validIP);
    }
  }

  // ---- Entities ----

  lemma NamespaceRoundTrip(n: Namespace)
    requires NamespaceProblem(n).None?
    ensures DecodeNamespace(EncodeNamespace(n)) == Some(n)
  {
    DecodeOfStrings(Segments(n));
    if n.path != "" {
      ParseNamespaceIff(n.path, n);
    }
  }

  lemma GroupRoundTrip(g: Group)
    requires GroupProblem(g).None?
    ensures EncodeGroup(g).Some? && DecodeGroup(EncodeGroup(g).value) == Some(g)
  {
    NamespaceRoundTrip(g.namespace);
    NewGroupIs(g.id.value, g.namespace);
    var fields := EncodeGroup(g).value.fields;
    assert Field(fields, "id") == Some(JStr(g.id.value));
    assert Field(fields, "namespace") == EncodeNamespace(g.namespace);
  }

  lemma GroupsRoundTrip(groups: seq<Group>)
    requires GroupsProblem(groups).None?
    ensures EncodeEach(groups, EncodeGroup).Some?
    ensures DecodeGroups(Some(JArr(EncodeEach(groups, EncodeGroup).value))) == Some(groups)
  {
    GroupsProblemNoneIff(groups);
    forall i | 0 <= i < |groups|
      ensures EncodeGroup(groups[i]).Some? && DecodeGroup(EncodeGroup(groups[i]).value) == Some(groups[i])
    {
      assert groups[i] in groups;
      GroupRoundTrip(groups[i]);
    }
    EachRoundTrip(groups, EncodeGroup, DecodeGroup);
  }

  lemma UserObjectFields(id: JSON, namespace: JSON, groups: JSON)
    requires id != JNull && namespace != JNull && groups != JNull
    ensures var fields := map["id" := id, "namespace" := namespace, "groups" := groups];
            Field(fields, "id") == Some(id) && Field(fields, "namespace") == Some(namespace)
            && Field(fields, "groups") == Some(groups)
  {
  }

  lemma UserFields(u: User)
    requires UserProblem(u).None?
    ensures EncodeUser(u).Some? && EncodeUser(u).value.JObj?
    ensures var fields := EncodeUser(u).value.fields;
            && Field(fields, "id") == Some(JStr(u.id.value))
            && Field(fields, "namespace") == EncodeNamespace(u.namespace)
            && Field(fields, "groups") == Some(JArr(EncodeEach(u.groups, EncodeGroup).value))
  {
    GroupsRoundTrip(u.groups);
    var namespace, groups := EncodeNamespace(u.namespace).value, JArr(EncodeEach(u.groups, EncodeGroup).value);
    UserObjectFields(JStr(u.id.value), namespace, groups);
  }

  lemma UserRoundTrip(u: User)
    requires UserProblem(u).None?
    ensures EncodeUser(u).Some? && DecodeUser(EncodeUser(u).value) == Some(u)
  {
    UserFields(u);
    NamespaceRoundTrip(u.namespace);
    GroupsRoundTrip(u.groups);
    assert MakeUser(Some(u.id.value), Some(u.namespace), Some(u.groups)) == Some(u) by {
      NewUserIs(u.id.value, u.namespace, u.groups);
    }
  }

  lemma PrincipalRoundTrip(p: Principal)
    requires PrincipalProblem(p).None?
    ensures EncodePrincipal(p).Some? && DecodePrincipal(EncodePrincipal(p).value) == Some(p)
  {
    if p.UserPrincipal? {
      UserRoundTrip(p.user);
      assert EncodePrincipal(p).value.fields == map["User" := EncodeUser(p.user).value];
    } else {
      GroupRoundTrip(p.group);
      assert EncodePrincipal(p).value.fields == map["Group" := EncodeGroup(p.group).value];
    }
  }

  lemma ActionRoundTrip(a: Action)
    requires ActionProblem(a).None?
    ensures EncodeAction(a).Some? && DecodeAction(EncodeAction(a).value) == Some(a)
  {
    NamespaceRoundTrip(a.namespace);
    NewActionIs(a.id.value, a.namespace);
    var fields := EncodeAction(a).value.fields;
    assert Field(fields, "id") == Some(JStr(a.id.value));
    assert Field(fields, "namespace") == EncodeNamespace(a.namespace);
  }

  lemma ResourceFields(r: Resource, validIP: IPCheck)
    requires ResourceProblem(r, validIP).None?
    ensures EncodeAttrMap(r.attrs, validIP).Some?
    ensures EncodeResource(r, validIP).Some? && EncodeResource(r, validIP).value.JObj?
    ensures var fields := EncodeResource(r, validIP).value.fields;
            && Field(fields, "kind") == Some(JStr(r.kind.name))
            && Field(fields, "id") == Some(JStr(r.id.value))
            && Field(fields, "attrs") == if r.attrs == map[] then None else EncodeAttrMap(r.attrs, validIP)
  {
    AttrMapEncodes(r.attrs, validIP);
  }

  lemma ResourceRoundTrip(r: Resource, validIP: IPCheck)
    requires ResourceProblem(r, validIP).None? && NoNilAttrs(r.attrs)
    ensures EncodeResource(r, validIP).Some? && DecodeResource(EncodeResource(r, validIP).value, validIP) == Some(r)
  {
    ResourceFields(r, validIP);
    AttrMapRoundTrip(r.attrs, validIP);
    MakeResourceIs(r, validIP);
    DecodedFromFields(EncodeResource(r, validIP).value.fields, r.kind.name, r.id.value, r.attrs, validIP);
  }

  lemma MakeResourceIs(r: Resource, validIP: IPCheck)
    requires ResourceProblem(r, validIP).None?
    ensures MakeResource(Some(r.kind.name), Some(r.id.value), Some(r.attrs), validIP) == Some(r)
  {
    NewResourceIs(r.kind, r.id.value, r.attrs, validIP);
  }

  lemma DecodedFromFields(fields: map<string, JSON>, kind: string, id: string, attrs: map<string, AttrValue>,
                          validIP: IPCheck)
    requires Field(fields, "kind") == Some(JStr(kind)) && Field(fields, "id") == Some(JStr(id))
    requires DecodeAttrMap(Field(fields, "attrs"), validIP) == Some(attrs)
    ensures DecodeResource(JObj(fields), validIP) == MakeResource(Some(kind), Some(id), Some(attrs), validIP)
  {
  }

  // ---- Batches ----

  lemma ObjectFields(id: string, noContext: bool, context: JSON, principal: JSON, action: JSON, resource: JSON)
    requires context != JNull
    ensures var fields := OmitIf(id == "", "id", JStr(id)) + OmitIf(noContext, "context", context)
                          + map["principal" := principal, "action" := action, "resource" := resource];
            && fields.Keys == {"principal", "action", "resource"} + (if id == "" then {} else {"id"})
                              + (if noContext then {} else {"context"})
            && Field(fields, "id") == (if id == "" then None else Some(JStr(id)))
            && Field(fields, "context") == (if noContext then None else Some(context))
            && "principal" in fields && fields["principal"] == principal
            && "action" in fields && fields["action"] == action
            && "resource" in fields && fields["resource"] == resource
  {
  }

  lemma AuthRequestFields(r: AuthRequest, validIP: IPCheck)
    requires EncodeAuthRequest(r, validIP).Some?
    ensures EncodeAttrMap(r.context, validIP).Some?
    ensures EncodeAuthRequest(r, validIP).value.JObj?
    ensures var fields := EncodeAuthRequest(r, validIP).value.fields;
            && fields.Keys == {"principal", "action", "resource"} + (if r.id.value == "" then {} else {"id"})
                              + (if r.context == map[] then {} else {"context"})
            && Field(fields, "id") == (if r.id.value == "" then None else Some(JStr(r.id.value)))
            && Field(fields, "context") == (if r.context == map[] then None else EncodeAttrMap(r.context, validIP))
            && "principal" in fields && EncodePrincipal(r.request.principal) == Some(fields["principal"])
            && "action" in fields && EncodeAction(r.request.action) == Some(fields["action"])
            && "resource" in fields && EncodeResource(r.request.resource, validIP) == Some(fields["resource"])
  {
    ObjectFields(r.id.value, r.context == map[], EncodeAttrMap(r.context, validIP).value,
                 EncodePrincipal(r.request.principal).value, EncodeAction(r.request.action).value,
                 EncodeResource(r.request.resource, validIP).value);
  }

  function PartsOf(r: AuthRequest): Parts {
    Parts(ClientID(r), r.request.principal, r.request.action, r.request.resource, r.context)
  }

  lemma MakeAuthRequestIs(r: AuthRequest, validIP: IPCheck)
    requires AuthRequestValid(r, validIP) && Canonical(r)
    ensures MakeAuthRequest(PartsOf(r), validIP) == Some(r)
  {
    var initial := AuthRequest(NO_ID, map[], r.request);
    var id := if r.id.isSet then [WithRequestID(r.id.value)] else [];
    var context := if r.context != map[] then [WithContext(r.context, validIP)] else [];
    ApplyConcat(initial, id, context);
    assert ApplyAll(initial, id) == Ok(initial.(id := r.id));
    assert ApplyAll(initial.(id := r.id), context) == Ok(r);
  }

  lemma DecodedParts(fields: map<string, JSON>, r: AuthRequest, validIP: IPCheck)
    requires Field(fields, "id") == if r.id.isSet then Some(JStr(r.id.value)) else None
    requires DecodeAttrMap(Field(fields, "context"), validIP) == Some(r.context)
    requires "principal" in fields && DecodePrincipal(fields["principal"]) == Some(r.request.principal)
    requires "action" in fields && DecodeAction(fields["action"]) == Some(r.request.action)
    requires "resource" in fields && DecodeResource(fields["resource"], validIP) == Some(r.request.resource)
    ensures DecodeParts(fields, validIP) == Some(PartsOf(r))
  {
  }

  lemma PartsRoundTrip(r: AuthRequest, validIP: IPCheck)
    requires AuthRequestValid(r, validIP) && Canonical(r)
    requires EncodeAuthRequest(r, validIP).Some?
    ensures EncodeAuthRequest(r, validIP).value.JObj?
    ensures DecodeParts(EncodeAuthRequest(r, validIP).value.fields, validIP) == Some(PartsOf(r))
  {
    AuthRequestFields(r, validIP);
    PrincipalRoundTrip(r.request.principal);
    ActionRoundTrip(r.request.action);
    ResourceRoundTrip(r.request.resource, validIP);
    AttrMapRoundTrip(r.context, validIP);
    DecodedParts(EncodeAuthRequest(r, validIP).value.fields, r, validIP);
  }

  lemma DecodedFromParts(fields: map<string, JSON>, parts: Option<Parts>, validIP: IPCheck)
    requires DecodeParts(fields, validIP) == parts
    ensures DecodeAuthRequest(JObj(fields), validIP) == FromParts(parts, validIP)
  {
  }

  lemma AuthRequestRoundTrip(r: AuthRequest, validIP: IPCheck)
    requires AuthRequestValid(r, validIP) && Canonical(r)
    ensures EncodeAuthRequest(r, validIP).Some?
    ensures DecodeAuthRequest(EncodeAuthRequest(r, validIP).value, validIP) == Some(r)
  {
    AuthRequestEncodesIff(r, validIP);
    PartsRoundTrip(r, validIP);
    MakeAuthRequestIs(r, validIP);
    DecodedFromParts(EncodeAuthRequest(r, validIP).value.fields, Some(PartsOf(r)), validIP);
  }

  /** Decoding undoes encoding, for every valid batch that the package can produce. */
  lemma BatchRoundTrip(batch: Batch, validIP: IPCheck)
    requires BatchValid(batch, validIP)
    requires forall r :: r in batch ==> Canonical(r)
    ensures EncodeBatch(batch, validIP).Some?
    ensures DecodeBatch(EncodeBatch(batch, validIP).value, validIP) == Some(batch)
  {
    forall i | 0 <= i < |batch|
      ensures var encoded := AuthRequestEncoder(validIP)(batch[i]);
              encoded.Some? && AuthRequestDecoder(validIP)(encoded.value) == Some(batch[i])
    {
      assert Check(validIP)(batch[i]) && batch[i] in batch;
      AuthRequestRoundTrip(batch[i], validIP);
    }
    EachRoundTrip(batch, AuthRequestEncoder(validIP), AuthRequestDecoder(validIP));
    var items := EncodeEach(batch, AuthRequestEncoder(validIP)).value;
    assert Field(EncodeBatch(batch, validIP).value.fields, "requests") == Some(JArr(items));
  }

  lemma MadeAuthRequestIsCanonical(parts: Parts, validIP: IPCheck)
    requires NoNilAttrs(parts.resource.attrs) && NoNilAttrs(parts.context)
    requires MakeAuthRequest(parts, validIP).Some?
    ensures Canonical(MakeAuthRequest(parts, validIP).value)
  {
    var initial := AuthRequest(NO_ID, map[], Request(parts.principal, parts.action, parts.resource));
    var id := if parts.id.Some? then [WithRequestID(parts.id.value)] else [];
    var context := if parts.context != map[] then [WithContext(parts.context, validIP)] else [];
    ApplyConcat(initial, id, context);
    var named := if parts.id.Some? then initial.(id := RequestID(parts.id.value, true)) else initial;
    assert ApplyAll(initial, id).Ok? ==> ApplyAll(initial, id) == Ok(named);
    assert ApplyAll(named, context).Ok? ==> ApplyAll(named, context) == Ok(named.(context := parts.context));
  }

  lemma DecodedResourceIsBuilt(j: JSON, validIP: IPCheck)
    requires DecodeResource(j, validIP).Some?
    ensures NoNilAttrs(DecodeResource(j, validIP).value.attrs)
  {
    var fields := StructFields(j).value;
    DecodedAttrMapIsBuilt(Field(fields, "attrs"), validIP);
    NewResourceIs(NewEntityType(DecodeString(Field(fields, "kind")).value).value, DecodeString(Field(fields, "id")).value,
                  DecodeAttrMap(Field(fields, "attrs"), validIP).value, validIP);
  }

  lemma DecodedAuthRequestIsCanonical(j: JSON, validIP: IPCheck)
    requires DecodeAuthRequest(j, validIP).Some?
    ensures Canonical(DecodeAuthRequest(j, validIP).value)
  {
    var fields := StructFields(j).value;
    DecodedAttrMapIsBuilt(Field(fields, "context"), validIP);
    DecodedResourceIsBuilt(fields["resource"], validIP);
    MadeAuthRequestIsCanonical(DecodeParts(fields, validIP).value, validIP);
  }

  /** The decoder's image is exactly the valid batches that the package can produce: every accepted document yields
      one, and every one of them is the decoding of some document. */
  lemma DecodableIff(batch: Batch, validIP: IPCheck)
    ensures (exists j :: DecodeBatch(j, validIP) == Some(batch)) <==>
            BatchValid(batch, validIP) && forall r :: r in batch ==> Canonical(r)
  {
    if BatchValid(batch, validIP) && forall r :: r in batch ==> Canonical(r) {
      BatchRoundTrip(batch, validIP);
    }
    forall j | DecodeBatch(j, validIP) == Some(batch)
      ensures forall r :: r in batch ==> Canonical(r)
    {
      var items := Field(StructFields(j).value, "requests").value.items;
      forall i | 0 <= i < |batch|
        ensures Canonical(batch[i])
      {
        assert AuthRequestDecoder(validIP)(items[i]) == Some(batch[i]);
        DecodedAuthRequestIsCanonical(items[i], validIP);
      }
    }
  }

  /** What the client actually sends decodes to the batch it was given. */
  lemma SentBatchRoundTrip(batch: Batch, validIP: IPCheck)
    requires BatchValid(batch, validIP)
    requires forall r :: r in batch ==> Canonical(r)
    ensures var sent := PrintBatch(ToAuthorizeRequestWire(batch), validIP);
            sent.Some? && DecodeBatch(sent.value, validIP) == Some(batch)
  {
    BatchRoundTrip(batch, validIP);
    FastIsSimpleIff(batch, validIP);
    assert forall i :: 0 <= i < |batch| ==> batch[i] in batch;
  }

  // ---- The documented wire format ----

  lemma {:induction false} EncodedItems(values: seq<AttrValue>, validIP: IPCheck)
    requires EncodeAttrs(values, validIP).Some?
    ensures var items := EncodeAttrs(values, validIP).value;
            |items| == |values| && forall i :: 0 <= i < |values| ==> EncodeAttr(values[i], validIP) == Some(items[i])
  {
    if values != [] {
      EncodedItems(values[1..], validIP);
    }
  }

  /** Every value is an object of its tag and its payload; a set is the array of its elements, in order. */
  lemma AttrWireFormat(v: AttrValue, validIP: IPCheck)
    requires WellFormed(v, validIP) && NoNilSets(v)
    ensures EncodeAttr(v, validIP).Some? && EncodeAttr(v, validIP).value.JObj?
    ensures var fields := EncodeAttr(v, validIP).value.fields;
            && fields.Keys == {"type", "value"}
            && match v.value
               case Str(s) =>
                 fields["type"] == JStr(if v.typeName == IpType then "Ip" else "String") && fields["value"] == JStr(s)
               case Boolean(b) => fields["type"] == JStr("Bool") && fields["value"] == JBool(b)
               case Long(n) => fields["type"] == JStr("Long") && fields["value"] == JInt(n)
               case Elements(values) =>
                 && fields["type"] == JStr("Set") && fields["value"].JArr? && |fields["value"].items| == |values|
                 && forall i :: 0 <= i < |values| ==> EncodeAttr(values[i], validIP) == Some(fields["value"].items[i])
               case _ => false
  {
    WellFormedEncodes(v, validIP);
    if v.value.Elements? {
      EncodedItems(v.value.values, validIP);
    }
  }

  /** Every batch item has the three parts of its request beside each other, an ID exactly when it carries one, and a
      context exactly when that is not empty. */
  lemma AuthRequestWireFormat(r: AuthRequest, validIP: IPCheck)
    requires AuthRequestValid(r, validIP) && Canonical(r)
    ensures EncodeAuthRequest(r, validIP).Some? && EncodeAuthRequest(r, validIP).value.JObj?
    ensures var fields := EncodeAuthRequest(r, validIP).value.fields;
            && fields.Keys == {"principal", "action", "resource"} + (if r.id.isSet then {"id"} else {})
                              + (if r.context == map[] then {} else {"context"})
            && Field(fields, "id") == (if r.id.isSet then Some(JStr(r.id.value)) else None)
  {
    AuthRequestEncodesIff(r, validIP);
    AuthRequestFields(r, validIP);
    assert r.id.isSet <==> r.id.value != "";
  }

  /** A namespace is the array of its segments, present even when it is empty. */
  lemma NamespaceWireFormat(n: Namespace)
    requires NamespaceProblem(n).None?
    ensures EncodeNamespace(n).Some? && EncodeNamespace(n).value.JArr?
    ensures var segments, items := Segments(n), EncodeNamespace(n).value.items;
            |items| == |segments| && forall i :: 0 <= i < |segments| ==> items[i] == JStr(segments[i])
    ensures n == GLOBAL ==> EncodeNamespace(n).value.items == []
  {
  }

  lemma GroupWireFormat(g: Group)
    requires GroupProblem(g).None?
    ensures EncodeGroup(g).Some? && EncodeGroup(g).value.JObj?
    ensures var fields := EncodeGroup(g).value.fields;
            && fields.Keys == {"id", "namespace"}
            && fields["id"] == JStr(g.id.value)
            && EncodeNamespace(g.namespace) == Some(fields["namespace"])
  {
  }

  /** A user principal has the single key User. Below it are exactly the ID, the namespace and the groups, in order;
      the last two are arrays even when they are empty. */
  lemma UserWireFormat(u: User)
    requires UserProblem(u).None?
    ensures EncodePrincipal(UserPrincipal(u)).Some? && EncodePrincipal(UserPrincipal(u)).value.JObj?
    ensures EncodePrincipal(UserPrincipal(u)).value.fields.Keys == {"User"}
    ensures var user := EncodePrincipal(UserPrincipal(u)).value.fields["User"];
            && user.JObj? && user.fields.Keys == {"id", "namespace", "groups"}
            && user.fields["id"] == JStr(u.id.value)
            && EncodeNamespace(u.namespace) == Some(user.fields["namespace"])
            && user.fields["groups"].JArr? && |user.fields["groups"].items| == |u.groups|
            && forall i :: 0 <= i < |u.groups| ==> EncodeGroup(u.groups[i]) == Some(user.fields["groups"].items[i])
  {
    UserFields(u);
    GroupsProblemNoneIff(u.groups);
    forall i | 0 <= i < |u.groups|
      ensures EncodeGroup(u.groups[i]).Some?
    {
      GroupWireFormat(u.groups[i]);
    }
  }
}
