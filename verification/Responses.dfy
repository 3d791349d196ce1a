/** Authorization responses: structural acceptance, version coherence, and correlation by request ID. */
module Responses {
  import opened Results
  import opened AttrValues
  import opened Batches

  /** A time.Time: an instant, and a location that comparison ignores. Instant 0 is the zero time. */
  datatype Time = Time(instant: int, location: string)

  type uint64 = n: int | 0 <= n < 0x1_0000_0000_0000_0000

  datatype PolicyVersion = PolicyVersion(hash: string, loadedAt: Time, labelSet: Option<string>, generation: uint64)

  /** PolicyVersion.equal: instants rather than times, and label sets by content rather than by pointer. */
  predicate SameVersion(a: PolicyVersion, b: PolicyVersion) {
    && a.hash == b.hash && a.loadedAt.instant == b.loadedAt.instant
    && a.labelSet == b.labelSet && a.generation == b.generation
  }

  datatype Decision = Allow | Deny | OtherDecision(text: string)

  /** isObject tells whether the policy's JSON text is an object. */
  datatype PermitPolicy = PermitPolicy(literal: string, cedarID: string, isObject: bool)

  /** The two decision forms of the generic response, and any other type it might be instantiated with. */
  datatype Evaluation =
    | Brief(decision: Decision, version: PolicyVersion, policyID: string)
    | Detailed(policies: seq<PermitPolicy>, decision: Decision, version: PolicyVersion)
    | Unsupported

  datatype Status = Success | Failed | OtherStatus(text: string)

  /** None stands for a nil pointer. */
  datatype IndexedResult<+T> = IndexedResult(
    index: int, id: Option<string>, status: Status, result: Option<T>, error: string)

  type Item = IndexedResult<Evaluation>

  datatype Response = Response(results: seq<Item>, version: PolicyVersion, successful: int, failed: int)

  datatype ResponseError =
    | NilResponse
    | WrongLength
    | MissingVersion
    | WrongIndex(position: nat)
    | BadSuccess(position: nat)
    | VersionMismatch(position: nat)
    | IncompletePolicy(position: nat, policy: nat)
    | DecisionMismatch(position: nat)
    | UnsupportedDecision(position: nat)
    | BadFailure(position: nat)
    | UnknownStatus(position: nat)
    | WrongCounts
    | UnexpectedID(position: nat)

  /** The position of the item that an error is about. */
  function Culprit(e: ResponseError): Option<nat> {
    match e
    case NilResponse => None
    case WrongLength => None
    case MissingVersion => None
    case WrongCounts => None
    case _ => Some(e.position)
  }

  // ---- What the checks mean ----

  predicate PolicyComplete(p: PermitPolicy) {
    p.literal != "" && p.cedarID != "" && p.isObject
  }

  /** A decision agrees with the batch version and with its own policies. */
  predicate Coherent(e: Evaluation, version: PolicyVersion) {
    match e
    case Brief(decision, own, policyID) =>
      SameVersion(own, version) && ((decision == Allow && policyID != "") || (decision == Deny && policyID == ""))
    case Detailed(policies, decision, own) =>
      && SameVersion(own, version)
      && (forall p :: p in policies ==> PolicyComplete(p))
      && ((decision == Allow && policies != []) || (decision == Deny && policies == []))
    case Unsupported => false
  }

  predicate WellTagged(item: Item, version: PolicyVersion) {
    match item.status
    case Success => item.result.Some? && item.error == "" && Coherent(item.result.value, version)
    case Failed => item.result.None?
    case OtherStatus(_) => false
  }

  predicate ItemAccepted(response: Response, position: nat)
    requires position < |response.results|
  {
    response.results[position].index == position && WellTagged(response.results[position], response.version)
  }

  function SuccessPositions(results: seq<Item>): set<int> {
    set i | 0 <= i < |results| && results[i].status == Success
  }

  function Successes(results: seq<Item>): nat {
    |SuccessPositions(results)|
  }

  predicate VersionPresent(v: PolicyVersion) {
    v.hash != "" && v.loadedAt.instant != 0
  }

  ghost predicate StructureAccepted(response: Response, expected: int) {
    && |response.results| == expected
    && VersionPresent(response.version)
    && (forall i :: 0 <= i < |response.results| ==> ItemAccepted(response, i))
    && response.successful == Successes(response.results)
    && response.failed == |response.results| - Successes(response.results)
  }

  // ---- The checks ----

  method ValidateDecision(e: Evaluation, version: PolicyVersion, position: nat) returns (problem: Option<ResponseError>)
    ensures problem.None? <==> Coherent(e, version)
    ensures problem.None? ==>
              && e.version.hash == version.hash && e.version.loadedAt.instant == version.loadedAt.instant
              && e.version.labelSet == version.labelSet && e.version.generation == version.generation
    ensures problem.Some? ==>
              match problem.value
              case VersionMismatch(at) =>
                && at == position && !e.Unsupported?
                && (e.version.hash != version.hash || e.version.loadedAt.instant != version.loadedAt.instant
                    || e.version.labelSet != version.labelSet || e.version.generation != version.generation)
              case IncompletePolicy(at, i) =>
                && at == position && e.Detailed? && i < |e.policies| && !PolicyComplete(e.policies[i])
                && forall j :: 0 <= j < i ==> PolicyComplete(e.policies[j])
              case DecisionMismatch(at) => at == position && !e.Unsupported? && SameVersion(e.version, version)
              case UnsupportedDecision(at) => at == position && e.Unsupported?
              case _ => false
  {
    match e
    case Brief(decision, own, policyID) => {
      if !SameVersion(own, version) {
        return Some(VersionMismatch(position));
      }
      match decision
      case Allow => return if policyID == "" then Some(DecisionMismatch(position)) else None;
      case Deny => return if policyID != "" then Some(DecisionMismatch(position)) else None;
      case OtherDecision(_) => return Some(DecisionMismatch(position));
    }
    case Detailed(policies, decision, own) => {
      if !SameVersion(own, version) {
        return Some(VersionMismatch(position));
      }
      for i := 0 to |policies|
        invariant forall j :: 0 <= j < i ==> PolicyComplete(policies[j])
      {
        if policies[i].literal == "" || policies[i].cedarID == "" || !policies[i].isObject {
          assert policies[i] in policies && !PolicyComplete(policies[i]);
          return Some(IncompletePolicy(position, i));
        }
      }
      match decision
      case Allow => return if policies == [] then Some(DecisionMismatch(position)) else None;
      case Deny => return if policies != [] then Some(DecisionMismatch(position)) else None;
      case OtherDecision(_) => return Some(DecisionMismatch(position));
    }
    case Unsupported => return Some(UnsupportedDecision(position));
  }

  lemma SuccessesStep(results: seq<Item>, n: nat)
    requires n < |results|
    ensures Successes(results[..n + 1]) == Successes(results[..n]) + if results[n].status == Success then 1 else 0
  {
    assert SuccessPositions(results[..n + 1]) ==
           SuccessPositions(results[..n]) + if results[n].status == Success then {n} else {};
  }

  /** validateAuthorizeResponseStructure; None is a nil response. */
  method ValidateStructure(response: Option<Response>, expected: int) returns (problem: Option<ResponseError>)
    ensures problem.None? <==> response.Some? && StructureAccepted(response.value, expected)
    ensures response.None? ==> problem == Some(NilResponse)
    ensures problem.Some? ==> !problem.value.UnexpectedID?
    ensures problem == Some(WrongCounts) ==>
              forall i :: 0 <= i < |response.value.results| ==> ItemAccepted(response.value, i)
    ensures problem.Some? && Culprit(problem.value).Some? ==>
              var at := Culprit(problem.value).value;
              && response.Some? && at < |response.value.results| && !ItemAccepted(response.value, at)
              && forall i :: 0 <= i < at ==> ItemAccepted(response.value, i)
  {
    if response.None? {
      return Some(NilResponse);
    }
    var r := response.value;
    if |r.results| != expected {
      return Some(WrongLength);
    }
    if r.version.hash == "" || r.version.loadedAt.instant == 0 {
      return Some(MissingVersion);
    }
    var successes := 0;
    for position := 0 to |r.results|
      invariant successes == Successes(r.results[..position])
      invariant forall i :: 0 <= i < position ==> ItemAccepted(r, i)
    {
      var item := r.results[position];
      SuccessesStep(r.results, position);
      if item.index != position {
        assert !ItemAccepted(r, position);
        return Some(WrongIndex(position));
      }
      match item.status {
        case Success =>
          successes := successes + 1;
          if item.result.None? || item.error != "" {
            assert !ItemAccepted(r, position);
            return Some(BadSuccess(position));
          }
          problem := ValidateDecision(item.result.value, r.version, position);
          if problem.Some? {
            assert !ItemAccepted(r, position);
            return;
          }
        case Failed =>
          if item.result.Some? {
            assert !ItemAccepted(r, position);
            return Some(BadFailure(position));
          }
        case OtherStatus(_) =>
          assert !ItemAccepted(r, position);
          return Some(UnknownStatus(position));
      }
    }
    assert r.results[..|r.results|] == r.results;
    var failures := |r.results| - successes;
    if r.successful != successes || r.failed != failures {
      return Some(WrongCounts);
    }
    return None;
  }

  /** The response repeats every request's own ID, or none. */
  predicate IDsMatch(response: Response, batch: Batch) {
    |response.results| == |batch| && forall i :: 0 <= i < |batch| ==> response.results[i].id == ClientID(batch[i])
  }

  ghost predicate ResponseAccepted(response: Response, batch: Batch) {
    StructureAccepted(response, |batch|) && IDsMatch(response, batch)
  }

  method ValidateResponse(response: Option<Response>, batch: Batch) returns (problem: Option<ResponseError>)
    ensures problem.None? <==> response.Some? && ResponseAccepted(response.value, batch)
    ensures problem.Some? && problem.value.UnexpectedID? ==>
              && response.Some? && StructureAccepted(response.value, |batch|)
              && var at := problem.value.position;
                 && at < |batch| && response.value.results[at].id != ClientID(batch[at])
                 && forall i :: 0 <= i < at ==> response.value.results[i].id == ClientID(batch[i])
  {
    problem := ValidateStructure(response, |batch|);
    if problem.Some? {
      return;
    }
    var r := response.value;
    for position := 0 to |r.results|
      invariant forall i :: 0 <= i < position ==> r.results[i].id == ClientID(batch[i])
    {
      var id := r.results[position].id;
      var expected := ClientID(batch[position]);
      if (expected.None? && id.Some?) || (expected.Some? && (id.None? || id.value != expected.value)) {
        return Some(UnexpectedID(position));
      }
    }
    return None;
  }

  /** FindByID: the position of the first result with the ID. */
  method FindByID(response: Option<Response>, id: string) returns (found: Option<nat>)
    ensures found == FirstWithID(response, id)
  {
    if response.None? {
      return None;
    }
    var results := response.value.results;
    for i := 0 to |results|
      invariant FirstFrom(results, 0, id) == FirstFrom(results, i, id)
    {
      if results[i].id.Some? && results[i].id.value == id {
        return Some(i);
      }
    }
    return None;
  }

  function FirstFrom(results: seq<Item>, from: nat, id: string): Option<nat>
    requires from <= |results|
    decreases |results| - from
  {
    if from == |results| then None
    else if results[from].id == Some(id) then Some(from)
    else FirstFrom(results, from + 1, id)
  }

  function FirstWithID(response: Option<Response>, id: string): Option<nat> {
    if response.None? then None else FirstFrom(response.value.results, 0, id)
  }

  // ---- Correlation ----

  lemma {:induction false} FirstFromIsFirst(results: seq<Item>, from: nat, id: string)
    requires from <= |results|
    ensures match FirstFrom(results, from, id)
            case None => forall i :: from <= i < |results| ==> results[i].id != Some(id)
            case Some(k) => from <= k < |results| && results[k].id == Some(id)
                            && forall i :: from <= i < k ==> results[i].id != Some(id)
    decreases |results| - from
  {
    if from < |results| && results[from].id != Some(id) {
      FirstFromIsFirst(results, from + 1, id);
    }
  }

  /** The right answer reaches the right request: against an accepted response to a valid batch, looking up an ID
      finds a result exactly when some request carries the ID. That result is at the position of the only such
      request, says so itself, and is the only result with the ID. */
  lemma FindByIDIsCorrelation(response: Response, batch: Batch, id: string, validIP: IPCheck)
    requires BatchValid(batch, validIP) && ResponseAccepted(response, batch)
    ensures var found := FirstWithID(Some(response), id);
            && (found.Some? <==> Carried(batch, |batch|, id))
            && (found.Some? ==>
                  && found.value < |batch|
                  && response.results[found.value].index == found.value
                  && forall j :: 0 <= j < |batch| ==>
                       && (ClientID(batch[j]) == Some(id) <==> j == found.value)
                       && (response.results[j].id == Some(id) <==> j == found.value))
  {
    FirstFromIsFirst(response.results, 0, id);
    var found := FirstWithID(Some(response), id);
    if found.Some? {
      var k := found.value;
      assert ItemAccepted(response, k);
      assert ClientID(batch[k]) == Some(id);
      forall j | k < j < |batch|
        ensures ClientID(batch[j]) != Some(id)
      {
        assert Carried(batch, j, id);
      }
    }
  }

  // ---- Version coherence ----

  /** All successful items of an accepted response were evaluated under one version, that of the batch. */
  lemma OneVersionPerBatch(response: Response, expected: int, i: nat, j: nat)
    requires StructureAccepted(response, expected)
    requires i < |response.results| && j < |response.results|
    requires response.results[i].status == Success && response.results[j].status == Success
    ensures response.results[i].result.Some? && !response.results[i].result.value.Unsupported?
    ensures response.results[j].result.Some? && !response.results[j].result.value.Unsupported?
    ensures var a, b, batch :=
              response.results[i].result.value.version, response.results[j].result.value.version, response.version;
            && a.hash == b.hash == batch.hash
            && a.loadedAt.instant == b.loadedAt.instant == batch.loadedAt.instant
            && a.labelSet == b.labelSet == batch.labelSet
            && a.generation == b.generation == batch.generation
  {
    assert ItemAccepted(response, i) && ItemAccepted(response, j);
  }
}
