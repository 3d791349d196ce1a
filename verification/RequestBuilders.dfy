/** RequestBuilder: first-call-wins setters, accumulated duplicate errors, and validation deferred to Build. */
module RequestBuilders {
  import opened Results
  import opened AttrValues
  import opened RequestDomain

  datatype Field = PrincipalField | ActionField | ResourceField

  datatype BuildError =
    | Duplicate(field: Field)
    | Missing(field: Field)
    | Invalid(field: Field, error: DomainError)
    | InvalidRequest(error: DomainError)

  datatype PrincipalKind = NoKind | UserKind | GroupKind

  /** The fields of the builder as one value. */
  datatype State = State(
    principalKind: PrincipalKind,
    principalID: string,
    userOptions: seq<Opt<User>>,
    groupOptions: seq<Opt<Group>>,
    actionID: string,
    actionOptions: seq<Opt<Action>>,
    resourceType: string,
    resourceID: string,
    resourceOptions: seq<Opt<Resource>>,
    actionSet: bool,
    resourceSet: bool,
    inputErrors: seq<BuildError>)

  const EMPTY := State(NoKind, "", [], [], "", [], "", "", [], false, false, [])

  /** One setter call with its arguments. */
  datatype Call =
    | UserCall(id: string, userOptions: seq<Opt<User>>)
    | GroupCall(id: string, groupOptions: seq<Opt<Group>>)
    | ActionCall(id: string, actionOptions: seq<Opt<Action>>)
    | ResourceCall(kind: string, id: string, resourceOptions: seq<Opt<Resource>>)
  {
    function Target(): Field {
      match this
      case UserCall(_, _) => PrincipalField
      case GroupCall(_, _) => PrincipalField
      case ActionCall(_, _) => ActionField
      case ResourceCall(_, _, _) => ResourceField
    }
  }

  predicate Taken(s: State, field: Field) {
    match field
    case PrincipalField => s.principalKind != NoKind
    case ActionField => s.actionSet
    case ResourceField => s.resourceSet
  }

  /** The effect of one setter call. */
  function Step(s: State, call: Call): State {
    if Taken(s, call.Target()) then s.(inputErrors := s.inputErrors + [Duplicate(call.Target())])
    else match call
      case UserCall(id, options) => s.(principalKind := UserKind, principalID := id, userOptions := options)
      case GroupCall(id, options) => s.(principalKind := GroupKind, principalID := id, groupOptions := options)
      case ActionCall(id, options) => s.(actionSet := true, actionID := id, actionOptions := options)
      case ResourceCall(kind, id, options) =>
        s.(resourceSet := true, resourceType := kind, resourceID := id, resourceOptions := options)
  }

  /** The state after any sequence of calls on a new builder. */
  function Run(calls: seq<Call>): State {
    if calls == [] then EMPTY else Step(Run(calls[..|calls| - 1]), calls[|calls| - 1])
  }

  // ---- Build ----

  function PrincipalResult(s: State): Result<Principal, BuildError> {
    match s.principalKind
    case NoKind => Err(Missing(PrincipalField))
    case UserKind =>
      (match NewUser(s.principalID, s.userOptions)
       case Err(e) => Err(Invalid(PrincipalField, e))
       case Ok(user) => Ok(UserPrincipal(user)))
    case GroupKind =>
      (match NewGroup(s.principalID, s.groupOptions)
       case Err(e) => Err(Invalid(PrincipalField, e))
       case Ok(group) => Ok(GroupPrincipal(group)))
  }

  function ActionResult(s: State): Result<Action, BuildError> {
    if !s.actionSet then Err(Missing(ActionField))
    else match NewAction(s.actionID, s.actionOptions)
      case Err(e) => Err(Invalid(ActionField, e))
      case Ok(action) => Ok(action)
  }

  function ResourceResult(s: State, validIP: IPCheck): Result<Resource, BuildError> {
    if !s.resourceSet then Err(Missing(ResourceField))
    else match NewResource(s.resourceType, s.resourceID, s.resourceOptions, validIP)
      case Err(e) => Err(Invalid(ResourceField, e))
      case Ok(resource) => Ok(resource)
  }

  function ErrorOf<T>(r: Result<T, BuildError>): seq<BuildError> {
    if r.Err? then [r.error] else []
  }

  function BuildResult(s: State, validIP: IPCheck): Result<Request, seq<BuildError>> {
    var principal, action, resource := PrincipalResult(s), ActionResult(s), ResourceResult(s, validIP);
    var errors := s.inputErrors + ErrorOf(principal) + ErrorOf(action) + ErrorOf(resource);
    if errors != [] || principal.Err? || action.Err? || resource.Err? then Err(errors)
    else match NewRequest(principal.value, action.value, resource.value, validIP)
      case Err(e) => Err([InvalidRequest(e)])
      case Ok(request) => Ok(request)
  }

  class RequestBuilder {
    var principalKind: PrincipalKind
    var principalID: string
    var userOptions: seq<Opt<User>>
    var groupOptions: seq<Opt<Group>>
    var actionID: string
    var actionOptions: seq<Opt<Action>>
    var resourceType: string
    var resourceID: string
    var resourceOptions: seq<Opt<Resource>>
    var actionSet: bool
    var resourceSet: bool
    var inputErrors: seq<BuildError>

    ghost function Value(): State
      reads this
    {
      State(principalKind, principalID, userOptions, groupOptions, actionID, actionOptions, resourceType, resourceID,
            resourceOptions, actionSet, resourceSet, inputErrors)
    }

    constructor ()
      ensures Value() == EMPTY
    {
      principalKind, principalID, userOptions, groupOptions := NoKind, "", [], [];
      actionID, actionOptions := "", [];
      resourceType, resourceID, resourceOptions := "", "", [];
      actionSet, resourceSet, inputErrors := false, false, [];
    }

    method AddDuplicate(field: Field)
      modifies this
      ensures Value() == old(Value()).(inputErrors := old(inputErrors) + [Duplicate(field)])
    {
      inputErrors := inputErrors + [Duplicate(field)];
    }

    method SetUser(id: string, options: seq<Opt<User>>)
      modifies this
      ensures Value() == Step(old(Value()), UserCall(id, options))
    {
      if principalKind != NoKind {
        AddDuplicate(PrincipalField);
        return;
      }
      principalKind := UserKind;
      principalID := id;
      userOptions := options;
    }

    method SetGroup(id: string, options: seq<Opt<Group>>)
      modifies this
      ensures Value() == Step(old(Value()), GroupCall(id, options))
    {
      if principalKind != NoKind {
        AddDuplicate(PrincipalField);
        return;
      }
      principalKind := GroupKind;
      principalID := id;
      groupOptions := options;
    }

    method SetAction(id: string, options: seq<Opt<Action>>)
      modifies this
      ensures Value() == Step(old(Value()), ActionCall(id, options))
    {
      if actionSet {
        AddDuplicate(ActionField);
        return;
      }
      actionSet := true;
      actionID := id;
      actionOptions := options;
    }

    method SetResource(kind: string, id: string, options: seq<Opt<Resource>>)
      modifies this
      ensures Value() == Step(old(Value()), ResourceCall(kind, id, options))
    {
      if resourceSet {
        AddDuplicate(ResourceField);
        return;
      }
      resourceSet := true;
      resourceType := kind;
      resourceID := id;
      resourceOptions := options;
    }

    /** Modifies nothing, so a builder can be built again with the same outcome. */
    method Build(validIP: IPCheck) returns (r: Result<Request, seq<BuildError>>)
      ensures r == BuildResult(Value(), validIP)
    {
      var errors := inputErrors;
      var principal := NoPrincipal;
      match principalKind {
        case UserKind =>
          var user := NewUser(principalID, userOptions);
          if user.Err? {
            errors := errors + [Invalid(PrincipalField, user.error)];
          } else {
            principal := UserPrincipal(user.value);
          }
        case GroupKind =>
          var group := NewGroup(principalID, groupOptions);
          if group.Err? {
            errors := errors + [Invalid(PrincipalField, group.error)];
          } else {
            principal := GroupPrincipal(group.value);
          }
        case NoKind =>
          errors := errors + [Missing(PrincipalField)];
      }
      assert errors == inputErrors + ErrorOf(PrincipalResult(Value()));
      var action := Err(UnsetID);
      if !actionSet {
        errors := errors + [Missing(ActionField)];
      } else {
        action := NewAction(actionID, actionOptions);
        if action.Err? {
          errors := errors + [Invalid(ActionField, action.error)];
        }
      }
      assert errors == inputErrors + ErrorOf(PrincipalResult(Value())) + ErrorOf(ActionResult(Value()));
      var resource := Err(UnsetID);
      if !resourceSet {
        errors := errors + [Missing(ResourceField)];
      } else {
        resource := NewResource(resourceType, resourceID, resourceOptions, validIP);
        if resource.Err? {
          errors := errors + [Invalid(ResourceField, resource.error)];
        }
      }
      assert errors == inputErrors + ErrorOf(PrincipalResult(Value())) + ErrorOf(ActionResult(Value()))
                       + ErrorOf(ResourceResult(Value(), validIP));
      if errors != [] {
        return Err(errors);
      }
      var request := NewRequest(principal, action.value, resource.value, validIP);
      if request.Err? {
        return Err([InvalidRequest(request.error)]);
      }
      return Ok(request.value);
    }
  }

  // ---- Every sequence of calls ----

  function Count(calls: seq<Call>, field: Field): nat {
    if calls == [] then 0
    else Count(calls[..|calls| - 1], field) + if calls[|calls| - 1].Target() == field then 1 else 0
  }

  /** The first call for the field. */
  function First(calls: seq<Call>, field: Field): Option<Call> {
    if calls == [] then None
    else if calls[0].Target() == field then Some(calls[0])
    else First(calls[1..], field)
  }

  /** The target of every call that is not the first for its field, in call order. */
  function Repeats(calls: seq<Call>): seq<BuildError> {
    if calls == [] then []
    else
      var before, last := calls[..|calls| - 1], calls[|calls| - 1];
      Repeats(before) + if Count(before, last.Target()) > 0 then [Duplicate(last.Target())] else []
  }

  lemma {:induction false} FirstOfPrefix(calls: seq<Call>, field: Field)
    requires calls != []
    ensures var before, last := calls[..|calls| - 1], calls[|calls| - 1];
            First(calls, field) ==
            if First(before, field).Some? then First(before, field)
            else if last.Target() == field then Some(last) else None
  {
    if |calls| > 1 {
      FirstOfPrefix(calls[1..], field);
      assert calls[1..][..|calls[1..]| - 1] == calls[..|calls| - 1][1..];
    }
  }

  lemma RunAppend(calls: seq<Call>, call: Call)
    ensures Run(calls + [call]) == Step(Run(calls), call)
  {
    assert (calls + [call])[..|calls|] == calls;
  }

  lemma FieldAppend(calls: seq<Call>, call: Call, field: Field)
    ensures Count(calls + [call], field) == Count(calls, field) + if call.Target() == field then 1 else 0
    ensures First(calls + [call], field) ==
            if First(calls, field).Some? then First(calls, field)
            else if call.Target() == field then Some(call) else None
  {
    assert (calls + [call])[..|calls|] == calls;
    FirstOfPrefix(calls + [call], field);
  }

  /** At most one principal call, then one action call and one resource call. */
  lemma CallsInOrder(principal: Option<Call>, action: Call, resource: Call, field: Field)
    requires principal.Some? ==> principal.value.Target() == PrincipalField
    requires action.Target() == ActionField && resource.Target() == ResourceField
    ensures var calls := (if principal.Some? then [principal.value] else []) + [action] + [resource];
            && First(calls, field) == (match field
                                       case PrincipalField => principal
                                       case ActionField => Some(action)
                                       case ResourceField => Some(resource))
            && Count(calls, field) == if First(calls, field).Some? then 1 else 0
  {
    var start := if principal.Some? then [principal.value] else [];
    FieldAppend(start, action, field);
    FieldAppend(start + [action], resource, field);
    if principal.Some? {
      assert start == [] + [principal.value];
      FieldAppend([], principal.value, field);
    }
  }

  lemma {:induction false} CountAndFirst(calls: seq<Call>, field: Field)
    ensures Count(calls, field) > 0 <==> First(calls, field).Some?
    ensures First(calls, field).Some? ==> First(calls, field).value.Target() == field
  {
    if calls != [] {
      CountAndFirst(calls[..|calls| - 1], field);
      FirstOfPrefix(calls, field);
    }
  }

  function PrincipalFrom(call: Option<Call>): Result<Principal, BuildError> {
    match call
    case Some(UserCall(id, options)) =>
      (match NewUser(id, options)
       case Err(e) => Err(Invalid(PrincipalField, e))
       case Ok(user) => Ok(UserPrincipal(user)))
    case Some(GroupCall(id, options)) =>
      (match NewGroup(id, options)
       case Err(e) => Err(Invalid(PrincipalField, e))
       case Ok(group) => Ok(GroupPrincipal(group)))
    case _ => Err(Missing(PrincipalField))
  }

  function ActionFrom(call: Option<Call>): Result<Action, BuildError> {
    match call
    case Some(ActionCall(id, options)) =>
      (match NewAction(id, options)
       case Err(e) => Err(Invalid(ActionField, e))
       case Ok(action) => Ok(action))
    case _ => Err(Missing(ActionField))
  }

  function ResourceFrom(call: Option<Call>, validIP: IPCheck): Result<Resource, BuildError> {
    match call
    case Some(ResourceCall(kind, id, options)) =>
      (match NewResource(kind, id, options, validIP)
       case Err(e) => Err(Invalid(ResourceField, e))
       case Ok(resource) => Ok(resource))
    case _ => Err(Missing(ResourceField))
  }

  /** What the builder holds after any sequence of calls: the arguments of the first call for each field, and one
      error for each later call. */
  lemma {:induction false} RunHoldsFirstCalls(calls: seq<Call>)
    ensures var s := Run(calls);
            && s.inputErrors == Repeats(calls)
            && (forall field :: Taken(s, field) <==> First(calls, field).Some?)
            && (s.principalKind == UserKind ==>
                  First(calls, PrincipalField) == Some(UserCall(s.principalID, s.userOptions)))
            && (s.principalKind == GroupKind ==>
                  First(calls, PrincipalField) == Some(GroupCall(s.principalID, s.groupOptions)))
            && (s.actionSet ==> First(calls, ActionField) == Some(ActionCall(s.actionID, s.actionOptions)))
            && (s.resourceSet ==>
                  First(calls, ResourceField) == Some(ResourceCall(s.resourceType, s.resourceID, s.resourceOptions)))
  {
    if calls != [] {
      var before, last := calls[..|calls| - 1], calls[|calls| - 1];
      RunHoldsFirstCalls(before);
      FirstOfPrefix(calls, PrincipalField);
      FirstOfPrefix(calls, ActionField);
      FirstOfPrefix(calls, ResourceField);
      CountAndFirst(before, last.Target());
    }
  }

  lemma FieldResults(calls: seq<Call>, validIP: IPCheck)
    ensures PrincipalResult(Run(calls)) == PrincipalFrom(First(calls, PrincipalField))
    ensures ActionResult(Run(calls)) == ActionFrom(First(calls, ActionField))
    ensures ResourceResult(Run(calls), validIP) == ResourceFrom(First(calls, ResourceField), validIP)
  {
    RunHoldsFirstCalls(calls);
    assert Taken(Run(calls), PrincipalField) <==> First(calls, PrincipalField).Some?;
    assert Taken(Run(calls), ActionField) <==> First(calls, ActionField).Some?;
    assert Taken(Run(calls), ResourceField) <==> First(calls, ResourceField).Some?;
  }

  lemma {:induction false} RepeatsCount(calls: seq<Call>)
    ensures |Repeats(calls)| == Extra(calls, PrincipalField) + Extra(calls, ActionField) + Extra(calls, ResourceField)
  {
    if calls != [] {
      RepeatsCount(calls[..|calls| - 1]);
    }
  }

  /** How many calls for the field came after the first. */
  function Extra(calls: seq<Call>, field: Field): nat {
    if Count(calls, field) == 0 then 0 else Count(calls, field) - 1
  }

  /** Each field was set exactly once when none was set twice and none was left out. */
  lemma OneCallEachIff(calls: seq<Call>)
    ensures (forall field :: Count(calls, field) == 1) <==>
            Repeats(calls) == [] && forall field :: First(calls, field).Some?
  {
    RepeatsCount(calls);
    CountAndFirst(calls, PrincipalField);
    CountAndFirst(calls, ActionField);
    CountAndFirst(calls, ResourceField);
    var once := forall field :: Count(calls, field) == 1;
    assert once <==> Count(calls, PrincipalField) == Count(calls, ActionField) == Count(calls, ResourceField) == 1;
  }

  /** Build needs only the three results: accepted parts always make an accepted request. */
  lemma BuildOfResults(s: State, validIP: IPCheck)
    ensures var principal, action, resource := PrincipalResult(s), ActionResult(s), ResourceResult(s, validIP);
            BuildResult(s, validIP) ==
            if s.inputErrors == [] && principal.Ok? && action.Ok? && resource.Ok? then
              Ok(Request(principal.value, action.value, resource.value))
            else Err(s.inputErrors + ErrorOf(principal) + ErrorOf(action) + ErrorOf(resource))
  {
    var principal, action, resource := PrincipalResult(s), ActionResult(s), ResourceResult(s, validIP);
    if principal.Ok? && action.Ok? && resource.Ok? {
      AcceptedPartsMakeRequest(principal.value, action.value, resource.value, validIP);
    }
  }

  /** Build after any sequence of calls. It succeeds exactly when each field was set by one call and each constructor
      accepts; the request then consists of what the constructors returned. Otherwise it reports one error for each
      repeated call, in call order, and then one for each field that is missing or that its first call made invalid. */
  lemma BuildAfter(calls: seq<Call>, validIP: IPCheck)
    ensures var principal := PrincipalFrom(First(calls, PrincipalField));
            var action := ActionFrom(First(calls, ActionField));
            var resource := ResourceFrom(First(calls, ResourceField), validIP);
            BuildResult(Run(calls), validIP) ==
            if (forall field :: Count(calls, field) == 1) && principal.Ok? && action.Ok? && resource.Ok? then
              Ok(Request(principal.value, action.value, resource.value))
            else Err(Repeats(calls) + ErrorOf(principal) + ErrorOf(action) + ErrorOf(resource))
  {
    RunHoldsFirstCalls(calls);
    FieldResults(calls, validIP);
    OneCallEachIff(calls);
    BuildOfResults(Run(calls), validIP);
  }

  /** The number of errors: repeated calls, plus fields missing or invalid. */
  lemma ErrorCount(calls: seq<Call>, validIP: IPCheck)
    requires BuildResult(Run(calls), validIP).Err?
    ensures |BuildResult(Run(calls), validIP).error| ==
            Extra(calls, PrincipalField) + Extra(calls, ActionField) + Extra(calls, ResourceField)
            + (if PrincipalFrom(First(calls, PrincipalField)).Err? then 1 else 0)
            + (if ActionFrom(First(calls, ActionField)).Err? then 1 else 0)
            + (if ResourceFrom(First(calls, ResourceField), validIP).Err? then 1 else 0)
  {
    BuildAfter(calls, validIP);
    RepeatsCount(calls);
  }
}
