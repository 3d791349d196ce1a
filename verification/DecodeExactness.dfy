/** Exactly which documents decode to which value, for every decoder of the request domain: what each one requires,
    what it ignores, and what it refuses. */
module DecodeExactness {
  import opened Results
  import opened CedarPath
  import opened AttrValues
  import opened RequestDomain
  import opened Json
  import opened Batches
  import opened Marshal
  import opened Decode
  import opened RoundTrip

  // ---- Attribute values ----

  lemma {:induction false} DecodeAttrsIff(items: seq<JSON>, values: seq<AttrValue>, validIP: IPCheck)
    ensures DecodeAttrs(items, validIP) == Some(values) <==>
            |items| == |values| && forall i :: 0 <= i < |items| ==> DecodeAttr(items[i], validIP) == Some(values[i])
    decreases items
  {
    if items != [] && values != [] {
      DecodeAttrsIff(items[1..], values[1..], validIP);
      assert values == [values[0]] + values[1..];
      assert forall i :: 1 <= i < |items| ==> items[i] == items[1..][i - 1];
      assert forall i :: 1 <= i < |values| ==> values[i] == values[1..][i - 1];
    }
  }

  /** The payload that a document spells under each tag. */
  predicate SpellsPayload(value: JSON, payload: Payload, validIP: IPCheck) {
    match payload
    case Str(s) => value == JStr(s)
    case Boolean(b) => value == JBool(b)
    case Long(n) => value == JInt(n)
    case Elements(values) =>
      && value.JArr? && |value.items| == |values|
      && forall i :: 0 <= i < |values| ==> DecodeAttr(value.items[i], validIP) == Some(values[i])
    case _ => false
  }

  /** A document decodes to an attribute value exactly when the value is well-formed, the type is its tag's name, and
      the value field, which may not be null, spells its payload. */
  lemma DecodeAttrIff(j: JSON, v: AttrValue, validIP: IPCheck)
    ensures DecodeAttr(j, validIP) == Some(v) <==>
              && WellFormed(v, validIP)
              && j.JObj? && Has(j.fields, "type", JStr(TagName(v.typeName)))
              && "value" in j.fields && SpellsPayload(j.fields["value"], v.value, validIP)
  {
    if !v.typeName.OtherType? {
      ParseTagOfName(v.typeName);
    }
    if WellFormed(v, validIP) && j.JObj? && "value" in j.fields {
      PayloadIff(v.typeName, j.fields["value"], v.value, validIP);
      if Has(j.fields, "type", JStr(TagName(v.typeName))) {
        assert Field(j.fields, "type") == Some(JStr(TagName(v.typeName)));
      }
    }
    if DecodeAttr(j, validIP) == Some(v) {
      TagNameOfParse(Field(j.fields, "type"));
    }
  }

  lemma TagNameOfParse(field: Option<JSON>)
    ensures field.Some? && field.value.JStr? ==> TagName(ParseTag(field.value.s)) == field.value.s
  {
  }

  lemma PayloadIff(tag: AttrType, value: JSON, payload: Payload, validIP: IPCheck)
    requires NodeProblem(AttrValue(tag, payload), validIP).None?
    ensures DecodePayload(tag, value, validIP) == Some(payload) <==> SpellsPayload(value, payload, validIP)
  {
    if value.JArr? && payload.Elements? {
      DecodeAttrsIff(value.items, payload.values, validIP);
    }
  }

  /** A map field: unset is an empty map; otherwise an object with exactly the names of the map. */
  lemma DecodeAttrMapIff(fields: map<string, JSON>, name: string, attrs: map<string, AttrValue>, validIP: IPCheck)
    ensures DecodeAttrMap(Field(fields, name), validIP) == Some(attrs) <==>
            if Unset(fields, name) then attrs == map[]
            else
              && fields[name].JObj? && fields[name].fields.Keys == attrs.Keys
              && forall key :: key in attrs ==> DecodeAttr(fields[name].fields[key], validIP) == Some(attrs[key])
  {
    if !Unset(fields, name) && fields[name].JObj? {
      var entries := fields[name].fields;
      assert Field(fields, name) == Some(JObj(entries));
      EntriesIff(entries, attrs, AttrDecoder(validIP));
    }
  }

  // ---- Entities ----

  lemma {:induction false} DecodeStringsIff(items: seq<JSON>, values: seq<string>)
    requires "" !in values
    ensures DecodeStrings(items) == Some(values) <==> JArr(items) == Strings(values)
  {
    if items != [] && values != [] {
      assert values == [values[0]] + values[1..];
      DecodeStringsIff(items[1..], values[1..]);
      assert Strings(values).items[1..] == Strings(values[1..]).items;
      assert items == [items[0]] + items[1..];
      assert Strings(values).items == [JStr(values[0])] + Strings(values[1..]).items;
    }
  }

  /** A namespace is decoded from exactly the array of its segments. */
  lemma DecodeNamespaceIff(fields: map<string, JSON>, n: Namespace)
    ensures DecodeNamespace(Field(fields, "namespace")) == Some(n) <==>
            NamespaceProblem(n).None? && Has(fields, "namespace", Strings(Segments(n)))
  {
    if NamespaceProblem(n).None? && Has(fields, "namespace", Strings(Segments(n))) {
      NamespaceRoundTrip(n);
      assert Field(fields, "namespace") == EncodeNamespace(n);
    }
    if DecodeNamespace(Field(fields, "namespace")) == Some(n) {
      var items := Field(fields, "namespace").value.items;
      var segments := DecodeStrings(items).value;
      NewNamespaceIs(segments);
      SegmentsOfNewNamespace(segments);
      DecodeStringsIff(items, segments);
    }
  }

  lemma DecodeIDIff(fields: map<string, JSON>, id: string)
    ensures DecodeString(Field(fields, "id")) == Some(id) <==> Has(fields, "id", JStr(id))
  {
  }

  /** Unknown fields are ignored; both known ones are required. */
  lemma DecodeGroupIff(fields: map<string, JSON>, g: Group)
    ensures DecodeGroup(JObj(fields)) == Some(g) <==>
              && GroupProblem(g).None?
              && Has(fields, "id", JStr(g.id.value)) && Has(fields, "namespace", Strings(Segments(g.namespace)))
  {
    var id, namespace := DecodeString(Field(fields, "id")), DecodeNamespace(Field(fields, "namespace"));
    DecodeIDIff(fields, g.id.value);
    DecodeNamespaceIff(fields, g.namespace);
    if id.Some? && namespace.Some? {
      NewGroupIs(id.value, namespace.value);
    }
  }

  lemma DecodeActionIff(fields: map<string, JSON>, a: Action)
    ensures DecodeAction(JObj(fields)) == Some(a) <==>
              && ActionProblem(a).None?
              && Has(fields, "id", JStr(a.id.value)) && Has(fields, "namespace", Strings(Segments(a.namespace)))
  {
    var id, namespace := DecodeString(Field(fields, "id")), DecodeNamespace(Field(fields, "namespace"));
    DecodeIDIff(fields, a.id.value);
    DecodeNamespaceIff(fields, a.namespace);
    if id.Some? && namespace.Some? {
      NewActionIs(id.value, namespace.value);
    }
  }

  lemma DecodeGroupsIff(fields: map<string, JSON>, groups: seq<Group>)
    ensures DecodeGroups(Field(fields, "groups")) == Some(groups) <==>
              && "groups" in fields && fields["groups"].JArr? && |fields["groups"].items| == |groups|
              && forall i :: 0 <= i < |groups| ==> DecodeGroup(fields["groups"].items[i]) == Some(groups[i])
  {
    if "groups" in fields && fields["groups"].JArr? {
      EachIff(fields["groups"].items, groups, DecodeGroup);
    }
  }

  lemma DecodeUserIff(fields: map<string, JSON>, u: User)
    ensures DecodeUser(JObj(fields)) == Some(u) <==>
              && UserProblem(u).None?
              && Has(fields, "id", JStr(u.id.value)) && Has(fields, "namespace", Strings(Segments(u.namespace)))
              && "groups" in fields && fields["groups"].JArr? && |fields["groups"].items| == |u.groups|
              && forall i :: 0 <= i < |u.groups| ==> DecodeGroup(fields["groups"].items[i]) == Some(u.groups[i])
  {
    var id, namespace := DecodeString(Field(fields, "id")), DecodeNamespace(Field(fields, "namespace"));
    var groups := DecodeGroups(Field(fields, "groups"));
    DecodeIDIff(fields, u.id.value);
    DecodeNamespaceIff(fields, u.namespace);
    DecodeGroupsIff(fields, u.groups);
    if id.Some? && namespace.Some? && groups.Some? {
      NewUserIs(id.value, namespace.value, groups.value);
    }
  }

  /** A principal has one key, User or Group, and nothing beside it. */
  lemma DecodePrincipalIff(j: JSON, p: Principal)
    ensures DecodePrincipal(j) == Some(p) <==>
              && j.JObj?
              && match p
                 case NoPrincipal => false
                 case UserPrincipal(user) => j.fields.Keys == {"User"} && DecodeUser(j.fields["User"]) == Some(user)
                 case GroupPrincipal(group) => j.fields.Keys == {"Group"} && DecodeGroup(j.fields["Group"]) == Some(group)
  {
    if j.JObj? {
      OneKey(j.fields, "User");
      OneKey(j.fields, "Group");
    }
  }

  lemma OneKey(fields: map<string, JSON>, name: string)
    ensures |fields| == 1 && name in fields <==> fields.Keys == {name}
  {
    assert |fields| == |fields.Keys|;
    if |fields| == 1 && name in fields {
      assert |fields.Keys - {name}| == 0;
    }
  }

  lemma DecodeResourceIff(fields: map<string, JSON>, r: Resource, validIP: IPCheck)
    ensures DecodeResource(JObj(fields), validIP) == Some(r) <==>
              && ResourceProblem(r, validIP).None?
              && Has(fields, "kind", JStr(r.kind.name)) && Has(fields, "id", JStr(r.id.value))
              && DecodeAttrMap(Field(fields, "attrs"), validIP) == Some(r.attrs)
  {
    var kind, id := DecodeString(Field(fields, "kind")), DecodeString(Field(fields, "id"));
    var attrs := DecodeAttrMap(Field(fields, "attrs"), validIP);
    DecodeIDIff(fields, r.id.value);
    assert kind == Some(r.kind.name) <==> Has(fields, "kind", JStr(r.kind.name));
    MadeResourceIff(kind, id, attrs, r, validIP);
  }

  lemma MadeResourceIff(kind: Option<string>, id: Option<string>, attrs: Option<map<string, AttrValue>>, r: Resource,
                        validIP: IPCheck)
    ensures MakeResource(kind, id, attrs, validIP) == Some(r) <==>
              && ResourceProblem(r, validIP).None?
              && kind == Some(r.kind.name) && id == Some(r.id.value) && attrs == Some(r.attrs)
  {
    if kind.Some? && id.Some? && attrs.Some? && NewEntityType(kind.value).Ok? {
      NewResourceIs(NewEntityType(kind.value).value, id.value, attrs.value, validIP);
    }
  }

  // ---- Batches ----

  /** The result of the options that an item's document asks for. */
  lemma MadeAuthRequestIff(parts: Parts, r: AuthRequest, validIP: IPCheck)
    ensures MakeAuthRequest(parts, validIP) == Some(r) <==>
              && AuthRequestValid(r, validIP) && (!r.id.isSet ==> r.id == NO_ID)
              && parts.id == ClientID(r) && parts.context == r.context
              && Request(parts.principal, parts.action, parts.resource) == r.request
  {
    var initial := AuthRequest(NO_ID, map[], Request(parts.principal, parts.action, parts.resource));
    var id := if parts.id.Some? then [WithRequestID(parts.id.value)] else [];
    var context := if parts.context != map[] then [WithContext(parts.context, validIP)] else [];
    ApplyConcat(initial, id, context);
    var named := if parts.id.Some? then initial.(id := RequestID(parts.id.value, true)) else initial;
    IDApplied(initial, parts.id);
    ContextApplied(named, parts.context, validIP);
  }

  /** NewAuthRequest with an ID and a context: the first thing wrong decides the error. */
  lemma NewAuthRequestIs(request: Request, id: string, context: map<string, AttrValue>, validIP: IPCheck)
    ensures var r := NewAuthRequest(request, [WithRequestID(id), WithContext(context, validIP)], validIP);
            if !SafeName(id) then r == Err(UnsafeID)
            else if !SafeAttributes(context, validIP) then r == Err(BadAttributes)
            else if RequestProblem(request, validIP).Some? then r == Err(RequestProblem(request, validIP).value)
            else r == Ok(AuthRequest(RequestID(id, true), context, request))
  {
    var initial := AuthRequest(NO_ID, map[], request);
    var named := initial.(id := RequestID(id, true));
    ApplyConcat(initial, [WithRequestID(id)], [WithContext(context, validIP)]);
    assert [WithRequestID(id)] + [WithContext(context, validIP)] == [WithRequestID(id), WithContext(context, validIP)];
    IDApplied(initial, Some(id));
    assert ApplyAll(named, [WithContext(context, validIP)]) ==
           if SafeAttributes(context, validIP) then Ok(named.(context := context)) else Err(BadAttributes);
  }

  /** Whatever the options do, an accepted item is valid, and it is what they made. */
  lemma NewAuthRequestValid(request: Request, options: seq<Opt<AuthRequest>>, validIP: IPCheck)
    ensures var made, r := ApplyAll(AuthRequest(NO_ID, map[], request), options), NewAuthRequest(request, options, validIP);
            && (r.Ok? <==> made.Ok? && AuthRequestValid(made.value, validIP))
            && (r.Ok? ==> r == made)
            && (made.Err? ==> r.Err? && r.error == made.error)
  {
  }

  /** On any item, the options replace the ID and the context it already has. */
  lemma ItemOptionsAre(r: AuthRequest, id: string, context: map<string, AttrValue>, validIP: IPCheck)
    ensures WithRequestID(id).Opt? && WithContext(context, validIP).Opt?
    ensures WithRequestID(id).apply(r) ==
            if SafeName(id) then Ok(AuthRequest(RequestID(id, true), r.context, r.request)) else Err(UnsafeID)
    ensures WithContext(context, validIP).apply(r) ==
            if SafeAttributes(context, validIP) then Ok(AuthRequest(r.id, context, r.request)) else Err(BadAttributes)
  {
  }

  /** Without options an item is the request alone. */
  lemma NewAuthRequestPlain(request: Request, validIP: IPCheck)
    ensures NewAuthRequest(request, [], validIP) ==
            if RequestProblem(request, validIP).Some? then Err(RequestProblem(request, validIP).value)
            else Ok(AuthRequest(NO_ID, map[], request))
  {
  }

  lemma IDApplied(r: AuthRequest, id: Option<string>)
    ensures ApplyAll(r, if id.Some? then [WithRequestID(id.value)] else []) ==
            if id.None? then Ok(r)
            else if SafeName(id.value) then Ok(r.(id := RequestID(id.value, true)))
            else Err(UnsafeID)
  {
  }

  lemma ContextApplied(r: AuthRequest, context: map<string, AttrValue>, validIP: IPCheck)
    requires r.context == map[]
    ensures ApplyAll(r, if context != map[] then [WithContext(context, validIP)] else []) ==
            if SafeAttributes(context, validIP) then Ok(r.(context := context)) else Err(BadAttributes)
  {
    if context == map[] {
      assert r.(context := context) == r;
    }
  }

  /** An item requires its three parts. Its ID may be unset, and so may its context, which is then empty. */
  lemma DecodeAuthRequestIff(fields: map<string, JSON>, r: AuthRequest, validIP: IPCheck)
    ensures DecodeAuthRequest(JObj(fields), validIP) == Some(r) <==>
              && AuthRequestValid(r, validIP) && (!r.id.isSet ==> r.id == NO_ID)
              && (if r.id.isSet then Has(fields, "id", JStr(r.id.value)) else Unset(fields, "id"))
              && DecodeAttrMap(Field(fields, "context"), validIP) == Some(r.context)
              && "principal" in fields && DecodePrincipal(fields["principal"]) == Some(r.request.principal)
              && "action" in fields && DecodeAction(fields["action"]) == Some(r.request.action)
              && "resource" in fields && DecodeResource(fields["resource"], validIP) == Some(r.request.resource)
  {
    var parts := DecodeParts(fields, validIP);
    DecodedFromParts(fields, parts, validIP);
    PartsIff(fields, PartsOf(r), validIP);
    if parts.Some? {
      MadeAuthRequestIff(parts.value, r, validIP);
    }
  }

  lemma PartsIff(fields: map<string, JSON>, parts: Parts, validIP: IPCheck)
    ensures DecodeParts(fields, validIP) == Some(parts) <==>
              && (if parts.id.Some? then Has(fields, "id", JStr(parts.id.value)) else Unset(fields, "id"))
              && DecodeAttrMap(Field(fields, "context"), validIP) == Some(parts.context)
              && "principal" in fields && DecodePrincipal(fields["principal"]) == Some(parts.principal)
              && "action" in fields && DecodeAction(fields["action"]) == Some(parts.action)
              && "resource" in fields && DecodeResource(fields["resource"], validIP) == Some(parts.resource)
  {
  }

  /** A batch requires its array, and distinct IDs. */
  lemma DecodeBatchIff(fields: map<string, JSON>, batch: Batch, validIP: IPCheck)
    ensures DecodeBatch(JObj(fields), validIP) == Some(batch) <==>
              && BatchValid(batch, validIP)
              && "requests" in fields && fields["requests"].JArr? && |fields["requests"].items| == |batch|
              && forall i :: 0 <= i < |batch| ==>
                   DecodeAuthRequest(fields["requests"].items[i], validIP) == Some(batch[i])
  {
    if "requests" in fields && fields["requests"].JArr? {
      assert Field(fields, "requests") == Some(fields["requests"]);
      EachIff(fields["requests"].items, batch, AuthRequestDecoder(validIP));
    }
  }
}
