/** Authorize and IsAllowed: the checks before sending and after receiving, with the server's reply as an input. */
module Client {
  import opened Results
  import opened AttrValues
  import opened RequestDomain
  import opened Json
  import opened Batches
  import opened Marshal
  import opened Wire
  import opened WireRefinement
  import opened RoundTrip
  import opened Bounds
  import opened Responses
  import opened ResponseCodec

  /** What a client is configured with, and the foreign functions it calls. */
  datatype Config = Config(
    limits: RequestLimits,
    maxRequestBytes: int64,
    printer: Printer,
    validIP: IPCheck,
    clock: Clock)

  /** The outcome of the exchange: a failure, or a successful reply with a JSON body. */
  datatype Reply = TransportFailure | Document(j: JSON)

  datatype ClientError =
    | InvalidBatch(batchError: BatchError)
    | OverLimit(limitError: LimitError)
    | NotEncoded
    | RequestTooLarge
    | NoReply
    | NotDecoded
    | InvalidResponse(responseError: ResponseError)
    | InvalidValue(error: DomainError)
    | EvaluationFailed(message: string)

  /** The batch may be sent: it is valid, within the limits, and its encoding and one newline fit the request size. */
  ghost predicate Sendable(batch: Batch, config: Config) {
    && BatchValid(batch, config.validIP)
    && WithinLimits(batch, config)
    && BodyFits(batch, config)
  }

  predicate WithinLimits(batch: Batch, config: Config) {
    && |batch| <= config.limits.maxBatchSize
    && forall i :: 0 <= i < |batch| ==> ContextWithin(batch[i].context, config.limits, config.printer, config.validIP)
  }

  predicate BodyFits(batch: Batch, config: Config) {
    var document := PrintBatch(ToAuthorizeRequestWire(batch), config.validIP);
    document.Some? && |config.printer(document.value)| + 1 <= config.maxRequestBytes
  }

  /** The reply is a response that every check accepts for the batch. */
  ghost predicate Answers(reply: Reply, batch: Batch, config: Config, response: Response) {
    && reply.Document?
    && DecodeBriefResponse(reply.j, config.clock) == Some(response)
    && ResponseAccepted(response, batch)
  }

  method Authorize(batch: Batch, config: Config, reply: Reply) returns (r: Result<Response, ClientError>)
    ensures r.Ok? <==> Sendable(batch, config) && exists response :: Answers(reply, batch, config, response)
    ensures r.Ok? ==> Answers(reply, batch, config, r.value)
    ensures match r
            case Ok(_) => true
            case Err(InvalidBatch(_)) => !BatchValid(batch, config.validIP)
            case Err(OverLimit(_)) => BatchValid(batch, config.validIP) && !WithinLimits(batch, config)
            case Err(RequestTooLarge) =>
              BatchValid(batch, config.validIP) && WithinLimits(batch, config) && !BodyFits(batch, config)
            case Err(NoReply) => Sendable(batch, config) && reply.TransportFailure?
            case Err(NotDecoded) =>
              Sendable(batch, config) && reply.Document? && DecodeBriefResponse(reply.j, config.clock).None?
            case Err(InvalidResponse(_)) =>
              && Sendable(batch, config) && reply.Document? && DecodeBriefResponse(reply.j, config.clock).Some?
              && !ResponseAccepted(DecodeBriefResponse(reply.j, config.clock).value, batch)
            case Err(_) => false
  {
    var valid := ValidateBatch(batch, Check(config.validIP));
    if valid.Err? {
      return Err(InvalidBatch(valid.error));
    }
    var overLimit := ValidateLimits(batch, config.limits, config.printer, config.validIP);
    if overLimit.Some? {
      return Err(OverLimit(overLimit.value));
    }
    var wire := BuildAuthorizeRequestWire(batch);
    var document := PrintBatch(wire, config.validIP);
    FastIsSimpleIff(batch, config.validIP);
    if document.None? {
      return Err(NotEncoded);
    }
    var body := EncodeJSONBounded(config.printer(document.value), config.maxRequestBytes);
    if body.None? {
      return Err(RequestTooLarge);
    }
    if reply.TransportFailure? {
      return Err(NoReply);
    }
    var decoded := DecodeBriefResponse(reply.j, config.clock);
    if decoded.None? {
      return Err(NotDecoded);
    }
    var problem := ValidateResponse(decoded, batch);
    if problem.Some? {
      return Err(InvalidResponse(problem.value));
    }
    assert Answers(reply, batch, config, decoded.value);
    return Ok(decoded.value);
  }

  /** RequestsBatch and SingleAuthorizeRequest: no ID and no context. */
  function Plain(request: Request): AuthRequest {
    AuthRequest(NO_ID, map[], request)
  }

  method IsAllowed(request: Request, config: Config, reply: Reply) returns (r: Result<bool, ClientError>)
    ensures r == Ok(true) <==> Decided(request, config, reply, Allow)
    ensures r == Ok(false) <==> Decided(request, config, reply, Deny)
    ensures r.Err? && r.error.InvalidValue? <==> RequestProblem(request, config.validIP).Some?
    ensures r.Err? && r.error.InvalidValue? ==> RequestProblem(request, config.validIP) == Some(r.error.error)
    ensures forall message :: r == Err(EvaluationFailed(message)) <==> Refused(request, config, reply, message)
  {
    var problem := ValidateRequest(request, config.validIP);
    if problem.Some? {
      return Err(InvalidValue(problem.value));
    }
    var batch := [Plain(request)];
    var authorized := Authorize(batch, config, reply);
    if authorized.Err? {
      return Err(authorized.error);
    }
    var response := authorized.value;
    if |response.results| != 1 {
      return Err(InvalidResponse(WrongLength));
    }
    var item := response.results[0];
    assert ItemAccepted(response, 0);
    if item.status == Failed {
      return Err(EvaluationFailed(item.error));
    }
    BriefPayload(reply.j, config.clock, 0);
    return Ok(item.result.value.decision == Allow);
  }

  /** An accepted one-item response carries the decision. */
  ghost predicate Decided(request: Request, config: Config, reply: Reply, decision: Decision) {
    var batch := [Plain(request)];
    && Sendable(batch, config)
    && exists response :: Answers(reply, batch, config, response) && DecidedBy(response, decision)
  }

  /** An accepted one-item response carries an evaluation error. */
  ghost predicate Refused(request: Request, config: Config, reply: Reply, message: string) {
    var batch := [Plain(request)];
    && Sendable(batch, config)
    && exists response :: Answers(reply, batch, config, response) && RefusedBy(response, message)
  }

  predicate RefusedBy(response: Response, message: string) {
    |response.results| == 1 && response.results[0].status == Failed && response.results[0].error == message
  }

  predicate DecidedBy(response: Response, decision: Decision) {
    && |response.results| == 1
    && response.results[0].status == Success
    && response.results[0].result.Some?
    && response.results[0].result.value.Brief?
    && response.results[0].result.value.decision == decision
  }

  lemma BriefPayload(j: JSON, clock: Clock, i: nat)
    requires DecodeBriefResponse(j, clock).Some?
    requires i < |DecodeBriefResponse(j, clock).value.results|
    ensures var item := DecodeBriefResponse(j, clock).value.results[i];
            item.result.Some? ==> item.result.value.Brief?
  {
    var items := Field(StructFields(j).value, "results").value.items;
    assert BriefDecoder(clock)(items[i]).Some?;
  }

  /** The reply, read as a document: its only result is the success for position 0, without an ID, whose decision field
      is this text, with this policy. */
  predicate SaysDecision(j: JSON, text: string, policyID: string) {
    && j.JObj? && "results" in j.fields && j.fields["results"].JArr? && |j.fields["results"].items| == 1
    && var item := j.fields["results"].items[0];
       && item.JObj?
       && Has(item.fields, "index", JInt(0)) && Unset(item.fields, "id")
       && Has(item.fields, "status", JStr("success")) && Unset(item.fields, "error")
       && "result" in item.fields && item.fields["result"].JObj?
       && Has(item.fields["result"].fields, "decision", JStr(text))
       && Has(item.fields["result"].fields, "policy_id", JStr(policyID))
  }

  /** The only result of the accepted reply, and what its document says. */
  lemma DecidedReply(request: Request, config: Config, reply: Reply, decision: Decision)
    requires decision == Allow || decision == Deny
    requires Decided(request, config, reply, decision)
    ensures reply.Document? && DecodeBriefResponse(reply.j, config.clock).Some?
    ensures var response := DecodeBriefResponse(reply.j, config.clock).value;
            && |response.results| == 1 && response.results[0].index == 0 && response.results[0].id == None
            && response.results[0].status == Success && response.results[0].result.Some?
            && response.results[0].result.value.Brief?
            && var e := response.results[0].result.value;
               && e.decision == decision && (e.policyID != "" <==> decision == Allow)
               && e.version.hash == response.version.hash != ""
               && e.version.loadedAt.instant == response.version.loadedAt.instant != 0
               && e.version.labelSet == response.version.labelSet
               && e.version.generation == response.version.generation
               && response.successful == 1 && response.failed == 0
               && SaysDecision(reply.j, if decision == Allow then "Allow" else "Deny", e.policyID)
  {
    var response :| Answers(reply, [Plain(request)], config, response) && DecidedBy(response, decision);
    OnlyItem(response, decision);
    assert response.results[0].id == ClientID(Plain(request));
    ReplySays(reply.j, response, config.clock);
  }

  lemma OnlyItem(response: Response, decision: Decision)
    requires decision == Allow || decision == Deny
    requires StructureAccepted(response, 1) && DecidedBy(response, decision)
    ensures response.results[0].index == 0 && response.successful == 1 && response.failed == 0
    ensures var e := response.results[0].result.value;
            && (e.policyID != "" <==> decision == Allow)
            && e.version.hash == response.version.hash != ""
            && e.version.loadedAt.instant == response.version.loadedAt.instant != 0
            && e.version.labelSet == response.version.labelSet
            && e.version.generation == response.version.generation
  {
    assert ItemAccepted(response, 0);
    assert SuccessPositions(response.results) == {0};
  }

  lemma ReplySays(j: JSON, response: Response, clock: Clock)
    requires DecodeBriefResponse(j, clock) == Some(response)
    requires |response.results| == 1 && response.results[0].index == 0 && response.results[0].id == None
    requires response.results[0].status == Success && response.results[0].result.Some?
    requires response.results[0].result.value.Brief? && !response.results[0].result.value.decision.OtherDecision?
    ensures var e := response.results[0].result.value;
            SaysDecision(j, if e.decision == Allow then "Allow" else "Deny", e.policyID)
  {
    var item := response.results[0];
    DecodeResponseIff(j.fields, response, clock);
    var fields := j.fields["results"].items[0].fields;
    DecodeItemIff(fields, item, PayloadDecoder(clock));
    DecodeBriefIff(fields["result"].fields, item.result.value, clock);
  }

  /** What a true answer means: the reply's only result is a success for position 0 whose decision is spelled Allow. It
      names a matching policy, and it was evaluated under the batch's own policy version. */
  lemma AllowedMeans(request: Request, config: Config, reply: Reply)
    requires Decided(request, config, reply, Allow)
    ensures reply.Document? && DecodeBriefResponse(reply.j, config.clock).Some?
    ensures exists policyID :: policyID != "" && SaysDecision(reply.j, "Allow", policyID)
    ensures var response := DecodeBriefResponse(reply.j, config.clock).value;
            && |response.results| == 1 && response.results[0].result.Some?
            && response.results[0].result.value.Brief?
            && var e := response.results[0].result.value;
               && e.version.hash == response.version.hash != ""
               && e.version.loadedAt.instant == response.version.loadedAt.instant != 0
               && e.version.labelSet == response.version.labelSet
               && e.version.generation == response.version.generation
               && response.successful == 1 && response.failed == 0
  {
    DecidedReply(request, config, reply, Allow);
  }

  /** What a false answer means: the same, with the decision spelled Deny and no policy. */
  lemma DeniedMeans(request: Request, config: Config, reply: Reply)
    requires Decided(request, config, reply, Deny)
    ensures reply.Document? && DecodeBriefResponse(reply.j, config.clock).Some?
    ensures SaysDecision(reply.j, "Deny", "")
    ensures var response := DecodeBriefResponse(reply.j, config.clock).value;
            && |response.results| == 1 && response.results[0].result.Some?
            && response.results[0].result.value.Brief?
            && var e := response.results[0].result.value;
               && e.version.hash == response.version.hash != ""
               && e.version.loadedAt.instant == response.version.loadedAt.instant != 0
               && e.version.labelSet == response.version.labelSet
               && e.version.generation == response.version.generation
               && response.successful == 1 && response.failed == 0
  {
    DecidedReply(request, config, reply, Deny);
  }

  /** What is sent for a single request: one item with the three parts of the request, and nothing else. */
  lemma PlainIsSent(request: Request, validIP: IPCheck)
    requires RequestProblem(request, validIP).None?
    ensures BatchValid([Plain(request)], validIP)
    ensures EncodeAuthRequest(Plain(request), validIP).Some? && EncodeAuthRequest(Plain(request), validIP).value.JObj?
    ensures var fields := EncodeAuthRequest(Plain(request), validIP).value.fields;
            && fields.Keys == {"principal", "action", "resource"}
            && EncodePrincipal(request.principal) == Some(fields["principal"])
            && EncodeAction(request.action) == Some(fields["action"])
            && EncodeResource(request.resource, validIP) == Some(fields["resource"])
  {
    AuthRequestEncodesIff(Plain(request), validIP);
    AuthRequestFields(Plain(request), validIP);
  }
}
