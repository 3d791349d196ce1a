/** The JSON forms of batch results, policy versions and brief responses. None stands for a codec error. */
module ResponseCodec {
  import opened Results
  import opened Json
  import opened Responses

  function StatusName(s: Status): string {
    match s
    case Success => "success"
    case Failed => "failed"
    case OtherStatus(text) => text
  }

  function ParseStatus(text: string): Status {
    if text == "success" then Success else if text == "failed" then Failed else OtherStatus(text)
  }

  predicate InInt64(n: int) {
    -0x8000_0000_0000_0000 <= n < 0x8000_0000_0000_0000
  }

  /** A string field that is not a pointer: absent and null leave it empty. */
  function PlainString(field: Option<JSON>): Option<string> {
    match field
    case None => Some("")
    case Some(JStr(s)) => Some(s)
    case Some(_) => None
  }

  /** A pointer to a string: absent and null leave it nil. */
  function StringPointer(field: Option<JSON>): Option<Option<string>> {
    match field
    case None => Some(None)
    case Some(JStr(s)) => Some(Some(s))
    case Some(_) => None
  }

  // ---- One indexed result, for any payload ----

  /** BatchResult.MarshalJSON: exactly one of a result and an error. */
  function EncodeResult<T>(item: IndexedResult<T>, encode: T -> Option<JSON>): Option<map<string, JSON>> {
    match item.status
    case Success =>
      if item.result.None? || item.error != "" then None
      else (match encode(item.result.value)
            case None => None
            case Some(payload) => Some(map["status" := JStr("success"), "result" := payload]))
    case Failed =>
      if item.result.Some? then None else Some(map["status" := JStr("failed"), "error" := JStr(item.error)])
    case OtherStatus(_) => None
  }

  /** IndexedResult.MarshalJSON: the tagged fields with the index and the ID beside them. */
  function EncodeItem<T>(item: IndexedResult<T>, encode: T -> Option<JSON>): Option<JSON> {
    match EncodeResult(item, encode)
    case None => None
    case Some(fields) =>
      var indexed := fields["index" := JInt(item.index)];
      Some(JObj(if item.id.Some? then indexed["id" := JStr(item.id.value)] else indexed))
  }

  /** BatchResult.UnmarshalJSON. The raw result field is present even when it is null. */
  function DecodeResult<T>(fields: map<string, JSON>, index: int, id: Option<string>, decode: JSON -> Option<T>)
    : Option<IndexedResult<T>>
  {
    match (PlainString(Field(fields, "status")), StringPointer(Field(fields, "error")))
    case (Some(status), Some(error)) =>
      (match ParseStatus(status)
       case Success =>
         if Field(fields, "result").None? || error.Some? then None
         else (match decode(fields["result"])
               case None => None
               case Some(payload) => Some(IndexedResult(index, id, Success, Some(payload), "")))
       case Failed =>
         if "result" in fields || error.None? then None
         else Some(IndexedResult(index, id, Failed, None, error.value))
       case OtherStatus(_) => None)
    case _ => None
  }

  function DecodeItem<T>(j: JSON, decode: JSON -> Option<T>): Option<IndexedResult<T>> {
    match StructFields(j)
    case None => None
    case Some(fields) =>
      match (Field(fields, "index"), StringPointer(Field(fields, "id")))
      case (Some(JInt(index)), Some(id)) => if InInt64(index) then DecodeResult(fields, index, id, decode) else None
      case _ => None
  }

  lemma StatusNames()
    ensures ParseStatus("success") == Success && ParseStatus("failed") == Failed
  {
    assert "failed"[0] != "success"[0];
  }

  /** Decoding undoes encoding for everything the encoder accepts, except a success whose payload encodes to null. */
  lemma ItemRoundTripIff<T>(item: IndexedResult<T>, encode: T -> Option<JSON>, decode: JSON -> Option<T>)
    requires InInt64(item.index)
    requires EncodeItem(item, encode).Some?
    requires item.result.Some? ==> decode(encode(item.result.value).value) == Some(item.result.value)
    ensures DecodeItem(EncodeItem(item, encode).value, decode) == Some(item) <==>
            !(item.status == Success && encode(item.result.value) == Some(JNull))
  {
    StatusNames();
    var fields := EncodeItem(item, encode).value.fields;
    assert Field(fields, "index") == Some(JInt(item.index));
    assert Field(fields, "id") == if item.id.Some? then Some(JStr(item.id.value)) else None;
    assert Field(fields, "status") == Some(JStr(StatusName(item.status)));
    if item.status == Success {
      assert Field(fields, "error") == None;
      assert fields["result"] == encode(item.result.value).value;
    } else {
      assert Field(fields, "error") == Some(JStr(item.error));
    }
  }

  /** A payload that may encode to null: a pointer, for which None stands for nil. */
  function EncodePointer(p: Option<string>): Option<JSON> {
    Some(if p.Some? then JStr(p.value) else JNull)
  }

  function DecodePointer(j: JSON): Option<Option<string>> {
    match j
    case JNull => Some(None)
    case JStr(s) => Some(Some(s))
    case _ => None
  }

  /** A payload codec that round-trips, and a success that the encoder accepts and the decoder rejects. */
  lemma NullPayloadRejected(index: int, id: Option<string>)
    ensures forall p :: DecodePointer(EncodePointer(p).value) == Some(p)
    ensures var item := IndexedResult(index, id, Success, Some(None), "");
            EncodeItem(item, EncodePointer).Some? && DecodeItem(EncodeItem(item, EncodePointer).value, DecodePointer).None?
  {
    var item := IndexedResult(index, id, Success, Some(None), "");
    StatusNames();
    assert Field(EncodeItem(item, EncodePointer).value.fields, "status") == Some(JStr("success"));
  }

  /** Whatever the decoder accepts has exactly one of a result and an error, and can be encoded again. */
  lemma DecodedItemIsTagged<T>(j: JSON, encode: T -> Option<JSON>, decode: JSON -> Option<T>)
    requires DecodeItem(j, decode).Some?
    ensures var item := DecodeItem(j, decode).value;
            && InInt64(item.index)
            && ((item.status == Success && item.result.Some? && item.error == "")
                || (item.status == Failed && item.result.None?))
            && (EncodeItem(item, encode).Some? <==> (item.status == Success ==> encode(item.result.value).Some?))
  {
  }

  /** Exactly which objects decode to an item: an index, an ID or none, and either a success with a result and without
      an error, or a failure with an error and without a result. */
  lemma DecodeItemIff<T>(fields: map<string, JSON>, item: IndexedResult<T>, decode: JSON -> Option<T>)
    ensures DecodeItem(JObj(fields), decode) == Some(item) <==>
              && Has(fields, "index", JInt(item.index)) && InInt64(item.index)
              && (if item.id.Some? then Has(fields, "id", JStr(item.id.value)) else Unset(fields, "id"))
              && match item.status
                 case Success =>
                   && Has(fields, "status", JStr("success")) && Unset(fields, "error") && item.error == ""
                   && !Unset(fields, "result") && item.result.Some? && decode(fields["result"]) == item.result
                 case Failed =>
                   && Has(fields, "status", JStr("failed")) && Has(fields, "error", JStr(item.error))
                   && "result" !in fields && item.result.None?
                 case OtherStatus(_) => false
  {
    StatusNames();
    var status := PlainString(Field(fields, "status"));
    if status.Some? {
      ParsedStatus(status.value);
    }
    ResultIff(fields, item, decode);
  }

  lemma ParsedStatus(text: string)
    ensures ParseStatus(text) == Success <==> text == "success"
    ensures ParseStatus(text) == Failed <==> text == "failed"
  {
    StatusNames();
  }

  lemma ResultIff<T>(fields: map<string, JSON>, item: IndexedResult<T>, decode: JSON -> Option<T>)
    ensures DecodeResult(fields, item.index, item.id, decode) == Some(item) <==>
              match item.status
              case Success =>
                && Has(fields, "status", JStr("success")) && Unset(fields, "error") && item.error == ""
                && !Unset(fields, "result") && item.result.Some? && decode(fields["result"]) == item.result
              case Failed =>
                && Has(fields, "status", JStr("failed")) && Has(fields, "error", JStr(item.error))
                && "result" !in fields && item.result.None?
              case OtherStatus(_) => false
  {
    var status := PlainString(Field(fields, "status"));
    if status.Some? {
      ParsedStatus(status.value);
    }
    ParsedStatus("");
  }

  // ---- Policy versions ----

  /** Timestamps are foreign: any pair of a formatter and a parser may stand for them. */
  datatype Clock = Clock(format: Time -> string, parse: string -> Option<Time>)

  const ZERO_TIME := Time(0, "UTC")

  /** The parser reads back the instant that the formatter wrote. */
  predicate KeepsInstant(clock: Clock, t: Time) {
    clock.parse(clock.format(t)).Some? && clock.parse(clock.format(t)).value.instant == t.instant
  }

  function EncodeVersion(v: PolicyVersion, clock: Clock): JSON {
    JObj(map["hash" := JStr(v.hash), "loaded_at" := JStr(clock.format(v.loadedAt)),
             "label_set" := if v.labelSet.Some? then JStr(v.labelSet.value) else JNull,
             "generation" := JInt(v.generation)])
  }

  function DecodeTime(field: Option<JSON>, clock: Clock): Option<Time> {
    match field
    case None => Some(ZERO_TIME)
    case Some(JStr(text)) => clock.parse(text)
    case Some(_) => None
  }

  /** policyVersionWire: label_set and generation must be present, label_set may be null, and generation must be an
      unsigned 64-bit integer. */
  function DecodeVersion(j: JSON, clock: Clock): Option<PolicyVersion> {
    match StructFields(j)
    case None => None
    case Some(fields) =>
      if "label_set" !in fields || "generation" !in fields then None
      else
        match (PlainString(Field(fields, "hash")), DecodeTime(Field(fields, "loaded_at"), clock),
               StringPointer(Field(fields, "label_set")), fields["generation"])
        case (Some(hash), Some(loadedAt), Some(labelSet), JInt(n)) =>
          if 0 <= n < 0x1_0000_0000_0000_0000 && VersionPresent(PolicyVersion(hash, loadedAt, labelSet, n)) then
            Some(PolicyVersion(hash, loadedAt, labelSet, n))
          else None
        case _ => None
  }

  /** A version survives the wire, as far as comparison can tell, exactly when it has a hash and a load time. */
  lemma VersionRoundTripIff(v: PolicyVersion, clock: Clock)
    requires KeepsInstant(clock, v.loadedAt)
    ensures var decoded := DecodeVersion(EncodeVersion(v, clock), clock);
            && (decoded.Some? <==> VersionPresent(v))
            && (decoded.Some? ==> SameVersion(decoded.value, v))
  {
    var fields := EncodeVersion(v, clock).fields;
    assert Field(fields, "hash") == Some(JStr(v.hash));
    assert Field(fields, "loaded_at") == Some(JStr(clock.format(v.loadedAt)));
    assert Field(fields, "label_set") == if v.labelSet.Some? then Some(JStr(v.labelSet.value)) else None;
    assert fields["generation"] == JInt(v.generation);
  }

  /** Exactly which objects decode: label_set and generation may never be left out, and an omitted load time is the
      zero time, which is refused. */
  lemma DecodeVersionIff(fields: map<string, JSON>, clock: Clock)
    ensures DecodeVersion(JObj(fields), clock).Some? <==>
              && "label_set" in fields && (fields["label_set"].JNull? || fields["label_set"].JStr?)
              && "generation" in fields && fields["generation"].JInt?
              && 0 <= fields["generation"].n < 0x1_0000_0000_0000_0000
              && "hash" in fields && fields["hash"].JStr? && fields["hash"].s != ""
              && "loaded_at" in fields && fields["loaded_at"].JStr?
              && clock.parse(fields["loaded_at"].s).Some?
              && clock.parse(fields["loaded_at"].s).value.instant != 0
    ensures DecodeVersion(JObj(fields), clock).Some? ==>
              var v := DecodeVersion(JObj(fields), clock).value;
              && JStr(v.hash) == fields["hash"] && Some(v.loadedAt) == clock.parse(fields["loaded_at"].s)
              && (if v.labelSet.Some? then JStr(v.labelSet.value) else JNull) == fields["label_set"]
              && JInt(v.generation) == fields["generation"]
  {
  }

  /** The version of an older response has neither of the new fields: it is refused, not completed with defaults. */
  lemma OlderVersionRefused(hash: string, loadedAt: Time, clock: Clock)
    ensures DecodeVersion(JObj(map["hash" := JStr(hash), "loaded_at" := JStr(clock.format(loadedAt))]), clock).None?
  {
  }

  // ---- Brief decisions and responses ----

  function ParseDecision(text: string): Decision {
    if text == "Allow" then Allow else if text == "Deny" then Deny else OtherDecision(text)
  }

  function DecodeBrief(j: JSON, clock: Clock): Option<Evaluation> {
    match StructFields(j)
    case None => None
    case Some(fields) =>
      var version := Field(fields, "version");
      match (StringPointer(Field(fields, "decision")), StringPointer(Field(fields, "policy_id")))
      case (Some(Some(decision)), Some(Some(policyID))) =>
        if version.None? then None
        else (match DecodeVersion(version.value, clock)
              case None => None
              case Some(own) => Some(Brief(ParseDecision(decision), own, policyID)))
      case _ => None
  }

  function PayloadDecoder(clock: Clock): JSON -> Option<Evaluation> {
    j => DecodeBrief(j, clock)
  }

  function BriefDecoder(clock: Clock): JSON -> Option<Item> {
    j => DecodeItem(j, PayloadDecoder(clock))
  }

  /** AuthorizeResponse.UnmarshalJSON: all four fields are required. */
  function DecodeBriefResponse(j: JSON, clock: Clock): Option<Response> {
    match StructFields(j)
    case None => None
    case Some(fields) =>
      var version := Field(fields, "version");
      match (Field(fields, "results"), Field(fields, "successful"), Field(fields, "failed"))
      case (Some(JArr(items)), Some(JInt(successful)), Some(JInt(failed))) =>
        if version.None? || !InInt64(successful) || !InInt64(failed) then None
        else (match (DecodeEach(items, BriefDecoder(clock)), DecodeVersion(version.value, clock))
              case (Some(results), Some(own)) => Some(Response(results, own, successful, failed))
              case _ => None)
      case _ => None
  }

  function DecisionName(d: Decision): string {
    match d
    case Allow => "Allow"
    case Deny => "Deny"
    case OtherDecision(text) => text
  }

  /** The plain encodings of AuthorizeDecisionBrief and of a response that holds such decisions. */
  function EncodeBrief(e: Evaluation, clock: Clock): Option<JSON> {
    if !e.Brief? then None
    else Some(JObj(map["decision" := JStr(DecisionName(e.decision)), "version" := EncodeVersion(e.version, clock),
                       "policy_id" := JStr(e.policyID)]))
  }

  function PayloadEncoder(clock: Clock): Evaluation -> Option<JSON> {
    e => EncodeBrief(e, clock)
  }

  function BriefEncoder(clock: Clock): Item -> Option<JSON> {
    item => EncodeItem(item, PayloadEncoder(clock))
  }

  function EncodeBriefResponse(r: Response, clock: Clock): Option<JSON> {
    match EncodeEach(r.results, BriefEncoder(clock))
    case None => None
    case Some(items) =>
      Some(JObj(map["results" := JArr(items), "version" := EncodeVersion(r.version, clock),
                    "successful" := JInt(r.successful), "failed" := JInt(r.failed)]))
  }

  /** The parser reads back exactly the time that the formatter wrote. */
  predicate KeepsTime(clock: Clock, t: Time) {
    clock.parse(clock.format(t)) == Some(t)
  }

  lemma VersionRoundTrip(v: PolicyVersion, clock: Clock)
    requires VersionPresent(v) && KeepsTime(clock, v.loadedAt)
    ensures DecodeVersion(EncodeVersion(v, clock), clock) == Some(v)
  {
    VersionRoundTripIff(v, clock);
  }

  /** The decision is read from the text of the reply: Allow and Deny from exactly these names. */
  lemma ParsedDecision(text: string)
    ensures ParseDecision(text) == Allow <==> text == "Allow"
    ensures ParseDecision(text) == Deny <==> text == "Deny"
    ensures ParseDecision(text).OtherDecision? ==> ParseDecision(text).text == text
  {
    DecisionNames();
  }

  /** Exactly which objects decode to a brief decision: all three fields are required. */
  lemma DecodeBriefIff(fields: map<string, JSON>, e: Evaluation, clock: Clock)
    ensures DecodeBrief(JObj(fields), clock) == Some(e) <==>
              && e.Brief?
              && "decision" in fields && fields["decision"].JStr?
              && (e.decision == Allow <==> fields["decision"].s == "Allow")
              && (e.decision == Deny <==> fields["decision"].s == "Deny")
              && (e.decision.OtherDecision? ==> e.decision.text == fields["decision"].s)
              && Has(fields, "policy_id", JStr(e.policyID))
              && "version" in fields && DecodeVersion(fields["version"], clock) == Some(e.version)
  {
    if "decision" in fields && fields["decision"].JStr? {
      ParsedDecision(fields["decision"].s);
    }
  }

  /** Exactly which objects decode to a response: all four fields are required. */
  lemma DecodeResponseIff(fields: map<string, JSON>, r: Response, clock: Clock)
    ensures DecodeBriefResponse(JObj(fields), clock) == Some(r) <==>
              && "results" in fields && fields["results"].JArr? && |fields["results"].items| == |r.results|
              && (forall i :: 0 <= i < |r.results| ==>
                    DecodeItem(fields["results"].items[i], PayloadDecoder(clock)) == Some(r.results[i]))
              && "version" in fields && DecodeVersion(fields["version"], clock) == Some(r.version)
              && Has(fields, "successful", JInt(r.successful)) && InInt64(r.successful)
              && Has(fields, "failed", JInt(r.failed)) && InInt64(r.failed)
  {
    if "results" in fields && fields["results"].JArr? {
      assert Field(fields, "results") == Some(fields["results"]);
      ResultsIff(fields["results"].items, r.results, clock);
    }
  }

  lemma ResultsIff(items: seq<JSON>, results: seq<Item>, clock: Clock)
    ensures DecodeEach(items, BriefDecoder(clock)) == Some(results) <==>
              && |items| == |results|
              && forall i :: 0 <= i < |items| ==> DecodeItem(items[i], PayloadDecoder(clock)) == Some(results[i])
  {
    EachIff(items, results, BriefDecoder(clock));
  }

  lemma DecisionNames()
    ensures ParseDecision("Allow") == Allow && ParseDecision("Deny") == Deny
  {
    assert "Deny"[0] != "Allow"[0];
  }

  /** A brief decision survives the wire when it is Allow or Deny under a version that is present. */
  lemma BriefRoundTrip(e: Evaluation, clock: Clock)
    requires e.Brief? && !e.decision.OtherDecision?
    requires VersionPresent(e.version) && KeepsTime(clock, e.version.loadedAt)
    ensures EncodeBrief(e, clock).Some? && EncodeBrief(e, clock).value.JObj?
    ensures DecodeBrief(EncodeBrief(e, clock).value, clock) == Some(e)
  {
    var fields := EncodeBrief(e, clock).value.fields;
    assert Field(fields, "decision") == Some(JStr(DecisionName(e.decision)));
    assert Field(fields, "policy_id") == Some(JStr(e.policyID));
    assert Field(fields, "version") == Some(EncodeVersion(e.version, clock));
    VersionRoundTrip(e.version, clock);
    DecisionNames();
  }

  /** The item holds a brief decision, if any, whose load time the clock keeps. */
  predicate BriefItem(item: Item, clock: Clock) {
    item.result.Some? ==> item.result.value.Brief? && KeepsTime(clock, item.result.value.version.loadedAt)
  }

  lemma BriefItemRoundTrip(item: Item, version: PolicyVersion, clock: Clock)
    requires InInt64(item.index) && WellTagged(item, version) && VersionPresent(version) && BriefItem(item, clock)
    ensures BriefEncoder(clock)(item).Some?
    ensures BriefDecoder(clock)(BriefEncoder(clock)(item).value) == Some(item)
  {
    if item.result.Some? {
      BriefRoundTrip(item.result.value, clock);
    }
    ItemRoundTripIff(item, PayloadEncoder(clock), PayloadDecoder(clock));
  }

  /** Every accepted brief response, encoded again, decodes to itself. */
  lemma BriefResponseRoundTrip(r: Response, expected: int, clock: Clock)
    requires StructureAccepted(r, expected) && InInt64(expected)
    requires KeepsTime(clock, r.version.loadedAt) && forall item :: item in r.results ==> BriefItem(item, clock)
    ensures EncodeBriefResponse(r, clock).Some?
    ensures DecodeBriefResponse(EncodeBriefResponse(r, clock).value, clock) == Some(r)
  {
    forall i | 0 <= i < |r.results|
      ensures var encoded := BriefEncoder(clock)(r.results[i]);
              encoded.Some? && BriefDecoder(clock)(encoded.value) == Some(r.results[i])
    {
      assert ItemAccepted(r, i) && r.results[i] in r.results;
      BriefItemRoundTrip(r.results[i], r.version, clock);
    }
    EachRoundTrip(r.results, BriefEncoder(clock), BriefDecoder(clock));
    VersionRoundTrip(r.version, clock);
    SuccessesBounded(r.results);
    ResponseFields(r, EncodeEach(r.results, BriefEncoder(clock)).value, clock);
  }

  lemma SuccessesBounded(results: seq<Item>)
    ensures Successes(results) <= |results|
  {
    if results != [] {
      var last := |results| - 1;
      SuccessesBounded(results[..last]);
      SuccessesStep(results, last);
      assert results[..last + 1] == results;
    }
  }

  lemma ResponseFields(r: Response, items: seq<JSON>, clock: Clock)
    requires EncodeEach(r.results, BriefEncoder(clock)) == Some(items)
    ensures EncodeBriefResponse(r, clock).Some? && EncodeBriefResponse(r, clock).value.JObj?
    ensures var fields := EncodeBriefResponse(r, clock).value.fields;
            && Field(fields, "results") == Some(JArr(items))
            && Field(fields, "version") == Some(EncodeVersion(r.version, clock))
            && Field(fields, "successful") == Some(JInt(r.successful))
            && Field(fields, "failed") == Some(JInt(r.failed))
  {
  }
}
