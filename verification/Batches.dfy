/** Authorization batches: optional request IDs, request-scoped context, and duplicate rejection. */
module Batches {
  import opened Results
  import opened AttrValues
  import opened RequestDomain

  datatype RequestID = RequestID(value: string, isSet: bool)

  datatype AuthRequest = AuthRequest(id: RequestID, context: map<string, AttrValue>, request: Request)

  /** A nil slice and an empty one behave alike everywhere, so a batch is a sequence. */
  type Batch = seq<AuthRequest>

  const NO_ID := RequestID("", false)

  function ClientID(r: AuthRequest): Option<string> {
    if r.id.isSet then Some(r.id.value) else None
  }

  predicate AuthRequestValid(r: AuthRequest, validIP: IPCheck) {
    && (r.id.isSet ==> SafeName(r.id.value))
    && SafeAttributes(r.context, validIP)
    && RequestProblem(r.request, validIP).None?
  }

  /** AuthRequest.Validate: the ID if there is one, the context in any map order, and the request. */
  method ValidateAuthRequest(r: AuthRequest, validIP: IPCheck) returns (valid: bool)
    ensures valid <==> AuthRequestValid(r, validIP)
  {
    if r.id.isSet {
      var safe := ValidateName(r.id.value);
      if !safe {
        return false;
      }
    }
    var safe := ValidateAttributes(r.context, validIP);
    if !safe {
      return false;
    }
    var problem := ValidateRequest(r.request, validIP);
    return problem.None?;
  }

  /** Some request before index n carries the ID. */
  ghost predicate Carried(batch: Batch, n: nat, id: string)
    requires n <= |batch|
  {
    exists j :: 0 <= j < n && ClientID(batch[j]) == Some(id)
  }

  function Check(validIP: IPCheck): AuthRequest -> bool {
    r => AuthRequestValid(r, validIP)
  }

  /** The first n requests pass the check and no two of them carry the same ID. */
  ghost predicate PrefixValid(batch: Batch, n: nat, check: AuthRequest -> bool)
    requires n <= |batch|
  {
    && (forall i :: 0 <= i < n ==> check(batch[i]))
    && (forall i :: 0 <= i < n && batch[i].id.isSet ==> !Carried(batch, i, batch[i].id.value))
  }

  ghost predicate BatchValid(batch: Batch, validIP: IPCheck) {
    PrefixValid(batch, |batch|, Check(validIP))
  }

  datatype BatchError = InvalidItem(index: nat) | DuplicateID(id: string)

  /** The item at index i passes the check but repeats an ID of the valid requests before it. */
  ghost predicate RepeatsAt(batch: Batch, i: int, id: string, check: AuthRequest -> bool) {
    && 0 <= i < |batch|
    && PrefixValid(batch, i, check) && check(batch[i])
    && ClientID(batch[i]) == Some(id) && Carried(batch, i, id)
  }

  /** AuthorizeRequest.Validate, with its map of the IDs seen so far. An error names the first item that is invalid or
      repeats the ID of an earlier one. */
  method ValidateBatch(batch: Batch, check: AuthRequest -> bool) returns (r: Result<(), BatchError>)
    ensures r.Ok? <==> PrefixValid(batch, |batch|, check)
    ensures match r
            case Ok(_) => true
            case Err(InvalidItem(i)) => i < |batch| && PrefixValid(batch, i, check) && !check(batch[i])
            case Err(DuplicateID(id)) => exists i :: RepeatsAt(batch, i, id, check)
  {
    var ids: set<string> := {};
    for i := 0 to |batch|
      invariant PrefixValid(batch, i, check)
      invariant forall id :: id in ids <==> Carried(batch, i, id)
    {
      if !check(batch[i]) {
        return Err(InvalidItem(i));
      }
      CarriedStep(batch, i);
      if !batch[i].id.isSet {
        continue;
      }
      var id := batch[i].id.value;
      if id in ids {
        assert RepeatsAt(batch, i, id, check);
        return Err(DuplicateID(id));
      }
      ids := ids + {id};
    }
    return Ok(());
  }

  lemma CarriedStep(batch: Batch, n: nat)
    requires n < |batch|
    ensures forall id :: Carried(batch, n + 1, id) <==> Carried(batch, n, id) || ClientID(batch[n]) == Some(id)
  {
  }

  predicate NoNilAttrs(attrs: map<string, AttrValue>) {
    forall name :: name in attrs ==> NoNilSets(attrs[name])
  }

  predicate NoNilRequest(r: AuthRequest) {
    NoNilAttrs(r.context) && NoNilAttrs(r.request.resource.attrs)
  }

  /** What only the package itself can produce: no nil sets, and no leftover text in an absent request ID. */
  predicate Canonical(r: AuthRequest) {
    (!r.id.isSet ==> r.id == NO_ID) && NoNilRequest(r)
  }
}
