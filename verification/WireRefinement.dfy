/** The fast encoding of a valid batch is the simple one: the same JSON, for exactly the batches without nil sets. */
module WireRefinement {
  import opened Results
  import opened AttrValues
  import opened RequestDomain
  import opened Json
  import opened Batches
  import opened Marshal
  import opened Wire

  lemma SameMapIff(attrs: map<string, AttrValue>, validIP: IPCheck)
    requires SafeAttributes(attrs, validIP)
    ensures PrintAttrMap(ToAttrMapWire(attrs), validIP).Some? && EncodeAttrMap(attrs, validIP).Some?
    ensures PrintAttrMap(ToAttrMapWire(attrs), validIP).value == EncodeAttrMap(attrs, validIP).value <==> NoNilAttrs(attrs)
  {
    var wires := ToAttrMapWire(attrs);
    var same := set name | name in attrs && NoNilSets(attrs[name]);
    forall name | name in wires
      ensures var fast, simple := AttrPrinter(validIP)(wires[name]), AttrEncoder(validIP)(attrs[name]);
              fast.Some? && simple.Some? && (fast.value == simple.value <==> name in same)
    {
      WellFormedEncodes(attrs[name], validIP);
      SameAttrIff(attrs[name], validIP);
    }
    assert wires.Keys == attrs.Keys;
    EntriesEncodingIff(wires, attrs, AttrPrinter(validIP), AttrEncoder(validIP), same);
    assert attrs.Keys <= same <==> NoNilAttrs(attrs);
  }

  lemma SameGroups(groups: seq<Group>)
    requires GroupsProblem(groups).None?
    ensures EncodeEach(groups, EncodeGroup) == Some(PrintGroups(ToGroupWires(groups)))
  {
    GroupsProblemNoneIff(groups);
    forall i | 0 <= i < |groups|
      ensures EncodeGroup(groups[i]) == Some(PrintGroup(ToGroupWires(groups)[i]))
    {
      assert groups[i] in groups;
    }
    assert EncodeEach(groups, EncodeGroup).value == PrintGroups(ToGroupWires(groups));
  }

  lemma SamePrincipal(p: Principal)
    requires PrincipalProblem(p).None?
    ensures EncodePrincipal(p) == Some(PrintPrincipal(ToPrincipalWire(p)))
  {
    if p.UserPrincipal? {
      SameGroups(p.user.groups);
      assert PrintPrincipal(ToPrincipalWire(p)) == JObj(map["User" := PrintUser(ToUserWire(p.user))]);
    } else {
      assert PrintPrincipal(ToPrincipalWire(p)) == JObj(map["Group" := PrintGroup(ToGroupWire(p.group))]);
    }
  }

  lemma EmptyMapWire(attrs: map<string, AttrValue>)
    ensures ToAttrMapWire(attrs) == map[] <==> attrs == map[]
  {
    assert ToAttrMapWire(attrs).Keys == attrs.Keys;
  }

  lemma SameResourceIff(r: Resource, validIP: IPCheck)
    requires ResourceProblem(r, validIP).None?
    ensures PrintResource(ToResourceWire(r), validIP).Some? && EncodeResource(r, validIP).Some?
    ensures PrintResource(ToResourceWire(r), validIP).value == EncodeResource(r, validIP).value <==> NoNilAttrs(r.attrs)
  {
    SameMapIff(r.attrs, validIP);
    EmptyMapWire(r.attrs);
    var fast, simple := PrintResource(ToResourceWire(r), validIP).value, EncodeResource(r, validIP).value;
    if r.attrs != map[] {
      assert fast.fields["attrs"] == PrintAttrMap(ToAttrMapWire(r.attrs), validIP).value;
      assert simple.fields["attrs"] == EncodeAttrMap(r.attrs, validIP).value;
    }
  }

  lemma SameFieldsIff(id: map<string, JSON>, noContext: bool, context: JSON, context': JSON, principal: JSON, action: JSON,
                      resource: JSON, resource': JSON)
    requires id == map[] || exists text :: id == map["id" := JStr(text)]
    ensures JObj(id + OmitIf(noContext, "context", context)
                 + map["principal" := principal, "action" := action, "resource" := resource])
            == JObj(id + OmitIf(noContext, "context", context')
                    + map["principal" := principal, "action" := action, "resource" := resource'])
            <==> resource == resource' && (noContext || context == context')
  {
    var a := id + OmitIf(noContext, "context", context)
             + map["principal" := principal, "action" := action, "resource" := resource];
    var b := id + OmitIf(noContext, "context", context')
             + map["principal" := principal, "action" := action, "resource" := resource'];
    assert a["resource"] == resource && b["resource"] == resource';
    assert !noContext ==> a["context"] == context && b["context"] == context';
  }

  lemma SameAuthRequestIff(r: AuthRequest, validIP: IPCheck)
    requires AuthRequestValid(r, validIP)
    ensures PrintAuthRequest(ToAuthRequestWire(r), validIP).Some? && EncodeAuthRequest(r, validIP).Some?
    ensures PrintAuthRequest(ToAuthRequestWire(r), validIP).value == EncodeAuthRequest(r, validIP).value <==> NoNilRequest(r)
  {
    AuthRequestEncodesIff(r, validIP);
    SamePrincipal(r.request.principal);
    SameMapIff(r.context, validIP);
    EmptyMapWire(r.context);
    SameResourceIff(r.request.resource, validIP);
    SameFieldsIff(OmitIf(r.id.value == "", "id", JStr(r.id.value)), r.context == map[],
                  PrintAttrMap(ToAttrMapWire(r.context), validIP).value, EncodeAttrMap(r.context, validIP).value,
                  PrintPrincipal(ToPrincipalWire(r.request.principal)), PrintAction(ToActionWire(r.request.action)),
                  PrintResource(ToResourceWire(r.request.resource), validIP).value,
                  EncodeResource(r.request.resource, validIP).value);
  }

  /** For every valid batch both encodings succeed, and they are the same JSON exactly when no set is a nil slice. */
  lemma FastIsSimpleIff(batch: Batch, validIP: IPCheck)
    requires BatchValid(batch, validIP)
    ensures PrintBatch(ToAuthorizeRequestWire(batch), validIP).Some? && EncodeBatch(batch, validIP).Some?
    ensures PrintBatch(ToAuthorizeRequestWire(batch), validIP) == EncodeBatch(batch, validIP) <==>
            forall i :: 0 <= i < |batch| ==> NoNilRequest(batch[i])
  {
    var wires := ToAuthorizeRequestWire(batch);
    var same := seq(|batch|, i requires 0 <= i < |batch| => NoNilRequest(batch[i]));
    forall i | 0 <= i < |batch|
      ensures var fast, simple := AuthRequestPrinter(validIP)(wires[i]), AuthRequestEncoder(validIP)(batch[i]);
              fast.Some? && simple.Some? && (fast.value == simple.value <==> same[i])
    {
      assert Check(validIP)(batch[i]);
      SameAuthRequestIff(batch[i], validIP);
    }
    EachEncodingIff(wires, batch, AuthRequestPrinter(validIP), AuthRequestEncoder(validIP), same);
    var fast, simple := PrintBatch(wires, validIP).value, EncodeBatch(batch, validIP).value;
    assert fast.fields["requests"].items == EncodeEach(wires, AuthRequestPrinter(validIP)).value;
    assert simple.fields["requests"].items == EncodeEach(batch, AuthRequestEncoder(validIP)).value;
  }
}
