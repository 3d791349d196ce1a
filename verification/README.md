# Verification of the Treetop Go client

This project models the self-contained kernel of the Treetop client, a Go client for a Cedar authorization server, and
proves what that kernel promises: what a batch means on the wire, which answers may reach a caller, what redacted
messages can contain, and where sizes and URL paths are exact. Check it with `dafny verify dfyconfig.toml`.

## What is modelled

| Files | Part of the client | Main results |
|---|---|---|
| `Redaction.dfy`, `Tokens.dfy`, `Bytes.dfy` | secret redaction and the token grammars | redaction is leftmost-longest replacement, whatever the order of the secrets; exactly which secrets can never appear in its output |
| `AttrValues.dfy` | the attribute-value tree | both explicit-stack algorithms equal their recursive meanings; what the constructors can build |
| `CedarPath.dfy` | identifiers, namespaces, entity types | scanning in place agrees with splitting; splitting undoes joining |
| `RequestDomain.dfy`, `RequestOptions.dfy`, `Batches.dfy` | entities, options, constructors, batches | what every option does to any value, and what lists of them compose to; duplicate rejection |
| `Json.dfy`, `Marshal.dfy`, `Wire.dfy`, `WireRefinement.dfy` | the nested and the plain encodings | the fast encoding is the simple one for exactly the batches without nil sets |
| `Decode.dfy`, `RoundTrip.dfy`, `DecodeExactness.dfy` | the validating decoders | decoding undoes encoding, and decodes to exactly the valid batches; exactly which documents decode to which value |
| `RequestBuilders.dfy`, `RequestInputs.dfy` | the mutable builder and raw request input | the outcome of Build after every sequence of calls; raw input makes exactly the request it describes |
| `Bounds.dfy` | bounded buffer, bounded reader, context limits | exact acceptance, over any chunking and any map order |
| `Responses.dfy`, `ResponseCodec.dfy`, `Client.dfy` | response acceptance, codecs, Authorize and IsAllowed | the right answer reaches the right request, under one policy version |
| `PercentEncoding.dfy`, `Endpoints.dfy`, `Utf8.dfy` | endpoint URLs | escaped and decoded paths stay in step; one segment per user; users as text |

Conventions. Objects that the client changes step by step are classes (`RequestBuilder`, `LimitedBuffer`); loops are
methods, proved against a specification function whose own properties are lemmas. Foreign calls are parameters over
which every statement is quantified: IP parsing (`IPCheck`), compact JSON printing (`Printer`), timestamp formatting
and parsing (`Clock`), the body of a response (`Body`) and the server's reply (`Reply`). JSON documents are trees. A
JSON codec returns `None` for an error.

## Where a promise holds only under a condition

The model follows the code. Where the code keeps a promise only sometimes, the exact condition is proved. Where the
condition alone does not show an input at which the promise fails, a lemma gives one.

- Redaction. An access token is removed from every message exactly when it is not part of the word `REDACTED`
  (`Tokens.AccessTokenNeverLeaksIff`). Upload tokens may be any header value, so they can also overlap the brackets of the
  marker. Beside some access token and in some message an upload token survives exactly when it can overlap the marker
  (`Tokens.UploadTokenSurvivesIff`); `]` is one that does (`Tokens.UploadTokenCanLeak`). `docs/api.md` claims redaction
  for both kinds. For sets of any secrets the condition is the same (`Redaction.NeverLeaksIff`).
- Wire formats. A set that holds a nil slice is valid; it is `null` in the nested encoding and `[]` in the plain one. The
  two encodings of a valid batch agree exactly when it has no such set (`WireRefinement.FastIsSimpleIff`). No
  constructor and no decoder of the package produces one (`AttrValues.BuiltIff`, `RoundTrip.DecodableIff`).
- Base URLs. `CHANGELOG.md` promises to preserve escaped path prefixes. A prefix is preserved, up to trailing slashes,
  exactly when it contains only bytes that an escaped path may contain and what remains does not end with an escaped
  slash (`Endpoints.PrefixPreservedIff`). `/a%2F` loses its slash (`Endpoints.EscapedSlashLost`), and so does
  `/a%2Fb|c`, because the other byte makes the client encode the whole path anew (`Endpoints.InnerSlashExample`).
- Bounded reading. At the largest limit, 2^63 - 1, a longer body is cut off instead of rejected (`Bounds.ReadBounded`).
- Batch results. The decoder reads back what the encoder wrote exactly when it is not a success whose payload encodes to
  `null` (`ResponseCodec.ItemRoundTripIff`). A nil pointer as payload is one (`ResponseCodec.NullPayloadRejected`); brief
  decisions never are (`ResponseCodec.BriefResponseRoundTrip`).
- Policy versions. The repository's `README.md` says that older responses default the new version fields. Its
  `docs/api.md` and the decoder require `label_set` and `generation`: `ResponseCodec.DecodeVersionIff` gives exactly the
  objects that decode, and an older version is never one of them (`ResponseCodec.OlderVersionRefused`).

## Model

| member | source | states |
|---|---|---|
| Redaction.RedactSecrets | token.go:125-147 | deduplication, the unstable sort and the replacer together compute leftmost-longest replacement of the set of non-empty secrets, so the order and repetition of the arguments cannot matter |
| Redaction.SortByLength | token.go:138 | sorts in place, longest first, keeping the contents; ties may come in any order |
| Redaction.Replace | token.go:139-146 | the left-to-right scan equals the recursive meaning of the replacer |
| Redaction.FirstMatchOfLongestFirst | token.go:138-146 | over patterns sorted by length, argument order picks a longest pattern that matches here, and none only if none matches |
| Redaction.ReplacedIsRedacted | token.go:138-146 | argument-order replacement over any length-sorted list is longest-match replacement over the set of its elements |
| Redaction.KeptRunsHideSecrets | token.go:125-147 | no run of bytes kept between markers spells a secret, for every message and set of secrets |
| Redaction.OccurrenceIsKept | token.go:125-147 | a word that cannot share a byte with a marker occurs in the output only inside kept bytes |
| Redaction.SecretNeverLeaks | token.go:125-147 | a secret that cannot overlap the marker occurs nowhere in the output, whatever the message and the other secrets |
| Redaction.OverlapLeaks | token.go:125-147 | for every secret that can overlap the marker there are a message without it and a second secret, a number, whose removal spells it |
| Redaction.NeverLeaksIff | token.go:125-147 | a secret is removed from every message whatever the other secrets if and only if it cannot overlap the marker |
| Tokens.ValidBearerToken | token.go:98-113 | the two-phase scanner accepts exactly the b64token grammar of section 2.1 of RFC 6750 |
| Tokens.ValidHeaderValue | token.go:115-123 | accepts exactly the texts without control bytes other than tab |
| Tokens.AccessTokenNeverLeaksIff | token.go:98-147 | an accepted access token is removed from every message if and only if it is not part of REDACTED |
| Tokens.AccessTokenInOutputIff | token.go:98-147 | for one message: the token is in the output exactly when it is part of REDACTED and some secret occurred in the message |
| Tokens.MarkedIff | token.go:125-147 | a marker is written exactly when the message contains a non-empty secret |
| Tokens.UploadTokenSurvivesIff | transport.go:122-142 | with the two tokens a client can hold, a non-empty upload token is in the redaction of some message beside some access token if and only if it can overlap the marker |
| Tokens.UploadTokenCanLeak | token.go:63-66 | an accepted upload token that is absent from the message and present in its redaction |
| AttrValues.Validate | request_types.go:477-515 | the stack loop reports the first bad node in right-to-left preorder, and accepts exactly the well-formed trees |
| AttrValues.ProblemIff | request_types.go:477-515 | the preorder has no bad node exactly when every node of the tree has a payload that fits its tag |
| AttrValues.PopVisit | request_types.go:479-511 | one step of the stack keeps the first problem of what is still to be visited, and the pending node count falls |
| AttrValues.AttrDepth | authorization_request.go:292-315 | the stack loop with its running maximum returns the recursive height |
| AttrValues.PopReach | authorization_request.go:299-311 | one step keeps the maximum of the depth seen and the depth still reachable |
| AttrValues.BuiltIff | request_types.go:440-462 | the constructors build exactly the well-formed values without nil sets |
| CedarPath.ValidateCedarIdentifier | validation.go:9-31 | the byte loop decides reserved words first, then the ASCII spelling |
| CedarPath.IsReservedCedarIdentifier | validation.go:24-31 | the switch accepts exactly the reserved words |
| CedarPath.AsciiLetterOrUnderscore | validation.go:102-104 | accepts exactly the first characters of an identifier |
| CedarPath.AsciiLetterDigitOrUnderscore | validation.go:106-108 | accepts exactly the characters that may follow |
| CedarPath.ValidateCedarPath | validation.go:33-48 | the in-place scanner finds the same first problem as splitting on the separator and checking every segment |
| CedarPath.ValidateNamespaceSegments | validation.go:50-57 | reports the problem of the first segment that has one |
| CedarPath.JoinOfSplit | cedar_types.go:28-46 | joining what splitting produced gives the text back, for every text |
| CedarPath.SplitOfJoin | cedar_types.go:19-46 | splitting a join of colon-free segments gives the segments back |
| CedarPath.FirstProblemIs | validation.go:50-57 | the error is that of the first bad segment: a reserved word, or a wrong spelling |
| CedarPath.NewNamespaceIs | cedar_types.go:19-24 | accepts exactly the lists of identifiers, with their join as path; otherwise the error is that of the first bad segment |
| CedarPath.PathErrors | cedar_types.go:28-103 | parsing and entity types accept exactly the texts whose segments are identifiers, and fail with the same error |
| CedarPath.SegmentsOfNewNamespace | cedar_types.go:19-46 | an accepted segment list survives the namespace, which then validates |
| CedarPath.NewNamespaceInjective | cedar_types.go:19-24 | distinct accepted segment lists have distinct paths |
| CedarPath.ParseNamespaceIff | cedar_types.go:28-61 | parsing accepts exactly the paths of valid namespaces, and undoes String on them |
| CedarPath.EntityTypeIff | cedar_types.go:98-113 | a text is an entity type exactly when it is the path of a namespace other than the global one |
| CedarPath.AcceptedPathIff | validation.go:33-48 | a path is accepted exactly when it joins one or more identifiers |
| RequestDomain.ValidateEntityID | validation.go:59-66 | accepts exactly the texts without quotes, backslashes and control characters |
| RequestDomain.ValidateName | validation.go:68-90 | accepts exactly the non-empty texts without control characters, for attribute names and request IDs |
| RequestDomain.ValidateGroup | request_types.go:54-59 | checks that the ID is set, its characters and the namespace, in that order |
| RequestDomain.ValidateUser | request_types.go:180-193 | checks ID, namespace and groups in that order and reports the first problem |
| RequestDomain.ValidateAttributes | request_types.go:691-698 | accepts exactly safe names with well-formed values, in every map order |
| RequestDomain.ValidateRequest | request_types.go:761-769 | checks principal, action and resource in that order, down to their fields, and reports the first problem |
| RequestDomain.RunOptions | request_types.go:159-166 | options apply in order, and the first nil or failing one decides the error |
| RequestDomain.ApplyConcat | request_types.go:159-166 | running two option lists in a row is running their concatenation |
| RequestDomain.NewGroupIs | request_types.go:30-59 | the option-driven constructor accepts exactly the valid group and returns it |
| RequestDomain.NewUserIs | request_types.go:105-193 | the same for a user with a namespace and groups |
| RequestDomain.NewActionIs | request_types.go:341-381 | the same for an action |
| RequestDomain.NewResourceIs | request_types.go:619-700 | the same for a resource with attributes |
| RequestDomain.GroupsProblemNoneIff | request_types.go:187-191 | the group loop accepts exactly when every group is valid |
| RequestOptions.NamespaceOptionsAre | request_types.go:19-27 | on any group, user or action, a namespace option replaces the namespace and nothing else, exactly when it is valid |
| RequestOptions.NamedGroupsAre | request_types.go:131-144 | names make global groups, one each and in order, exactly when all of them are safe |
| RequestOptions.UserWithGroupNamesIs | request_types.go:131-144 | on any user, the option keeps earlier memberships and adds the global groups of the names after them |
| RequestOptions.UserWithGroupsIs | request_types.go:117-128 | on any user, the option keeps earlier memberships and adds the groups after them; otherwise the error is that of the first bad group |
| RequestOptions.NewUserInGroups | request_types.go:117-168 | for every list of membership options the user has the groups of all of them, in option order |
| RequestOptions.AddAttributes | request_types.go:605-628 | the loop over the single-attribute option gives the same resource in every map order |
| RequestOptions.ResourceWithAttributesIs | request_types.go:605-628 | on any resource, the option keeps earlier attributes except those it replaces |
| RequestOptions.NewResourceWithMaps | request_types.go:642-660 | for every list of attribute options the resource has the entries of all of them, the last one of a name winning; otherwise type, ID and attributes decide the error in that order |
| RequestOptions.NewRequestIs | request_types.go:746-749 | a request is made of exactly the valid parts; otherwise the error is that of the first invalid one |
| Batches.ValidateBatch | authorization_request.go:228-247 | accepts exactly the batches of valid requests with distinct IDs; an error names the first bad item or the ID that item repeats |
| Batches.ValidateAuthRequest | authorization_request.go:86-101 | accepts exactly a safe ID or none, a safe context in any map order, and a valid request |
| Marshal.WellFormedEncodes | request_types.go:522-530 | a value encodes exactly when its whole tree is well-formed |
| Marshal.AuthRequestEncodesIff | authorization_request.go:104-119 | a batch item encodes exactly when Validate accepts it |
| Wire.BuildAttrValueWire | wire_types.go:112-122 | the recursive loop that fills a set's slice copies the tree, element by element |
| Wire.BuildAttrMapWire | wire_types.go:101-110 | the map loop converts every entry, in every iteration order |
| Wire.BuildUserWire | wire_types.go:81-87 | the group loop converts every group in order |
| Wire.BuildAuthorizeRequestWire | wire_types.go:51-57 | the batch loop converts every request in order |
| Wire.SameAttrIff | wire_types.go:112-122 | on one value the plain encoding equals the nested one exactly when no set inside is a nil slice |
| WireRefinement.SameMapIff | wire_types.go:101-110 | the same for a map of attributes |
| WireRefinement.SamePrincipal | wire_types.go:68-91 | for every valid principal both encodings are the same document |
| WireRefinement.SameResourceIff | wire_types.go:97-99 | for a valid resource, with attrs omitted by both or neither |
| WireRefinement.SameAuthRequestIff | wire_types.go:59-66 | for a valid batch item, with id and context omitted by both or neither |
| WireRefinement.FastIsSimpleIff | wire_types.go:51-122 | for every valid batch both encodings succeed, and they are the same document exactly when no set is a nil slice |
| RoundTrip.AttrRoundTrip | request_types.go:522-588 | decoding undoes encoding on every well-formed value without nil sets |
| RoundTrip.NamespaceRoundTrip | cedar_types.go:64-89 | decoding undoes encoding on every valid namespace, the global one included |
| RoundTrip.GroupRoundTrip | request_types.go:62-93 | the same for groups |
| RoundTrip.UserRoundTrip | request_types.go:197-237 | the same for users, with their groups in order |
| RoundTrip.PrincipalRoundTrip | request_types.go:283-329 | the same for both principal variants |
| RoundTrip.ActionRoundTrip | request_types.go:384-415 | the same for actions |
| RoundTrip.ResourceRoundTrip | request_types.go:703-736 | the same for resources, with omitted and present attributes |
| RoundTrip.AuthRequestRoundTrip | authorization_request.go:104-150 | the same for batch items: a validated ID is never empty, so omitting empty ones loses nothing |
| RoundTrip.BatchRoundTrip | authorization_request.go:158-181 | decoding undoes encoding on every valid batch that the package can produce |
| RoundTrip.DecodableIff | authorization_request.go:169-181 | a batch is the decoding of some document exactly when it is valid and the package can produce it |
| RoundTrip.SentBatchRoundTrip | endpoints.go:230-234 | what the client sends decodes to the batch it was given |
| RoundTrip.AttrWireFormat | request_types.go:522-530 | every encoded value has exactly the fields type and value, with the tag's name and the payload; a set is the array of its elements in order |
| RoundTrip.AuthRequestWireFormat | authorization_request.go:104-119 | an encoded item has exactly the fields principal, action and resource, an id exactly when it carries one, and a context exactly when that is not empty |
| RoundTrip.UserWireFormat | request_types.go:197-210 | every encoded user principal is an object with the one key User, and below it exactly id, namespace and groups, the groups in order and both arrays always present |
| RoundTrip.GroupWireFormat | request_types.go:62-70 | every encoded group has exactly the fields id and namespace |
| RoundTrip.NamespaceWireFormat | cedar_types.go:64-69 | every encoded namespace is the array of its segments, and the global one is an empty array |
| DecodeExactness.DecodeAttrIff | request_types.go:533-588 | exactly which documents decode to a value: its tag's name, and a present value field that spells its payload |
| DecodeExactness.DecodeAttrMapIff | request_types.go:716-730 | an unset map is empty; otherwise exactly the names of the map, each with a document of its value |
| DecodeExactness.DecodeNamespaceIff | cedar_types.go:72-89 | a namespace decodes from exactly the array of its segments |
| DecodeExactness.DecodeGroupIff | request_types.go:73-93 | exactly which objects decode to a group: both fields required |
| DecodeExactness.DecodeUserIff | request_types.go:213-237 | exactly which objects decode to a user: all three fields required, the groups in order |
| DecodeExactness.DecodePrincipalIff | request_types.go:298-329 | exactly one key, User or Group |
| DecodeExactness.DecodeActionIff | request_types.go:395-415 | exactly which objects decode to an action |
| DecodeExactness.DecodeResourceIff | request_types.go:715-736 | exactly which objects decode to a resource: kind and ID required, attributes optional |
| DecodeExactness.DecodeAuthRequestIff | authorization_request.go:122-150 | exactly which objects decode to an item: three parts required, ID and context optional |
| DecodeExactness.DecodeBatchIff | authorization_request.go:169-181 | exactly which objects decode to a batch: the array required, the IDs distinct |
| DecodeExactness.MadeAuthRequestIff | authorization_request.go:133-149 | the options that decoding asks for make exactly the valid item with these parts |
| DecodeExactness.NewAuthRequestIs | authorization_request.go:52-63 | with an ID and a context, the first of ID, context and request that is wrong decides the error |
| DecodeExactness.NewAuthRequestPlain | authorization_request.go:52-63 | without options an item is the valid request alone |
| DecodeExactness.NewAuthRequestValid | authorization_request.go:52-63 | for every list of options, an item is accepted exactly when they succeed and what they made is valid |
| DecodeExactness.ItemOptionsAre | authorization_request.go:22-49 | on any item, the options replace the ID and the context it has |
| RequestBuilders.RequestBuilder.constructor | request_builder.go:66-68 | a new builder holds nothing |
| RequestBuilders.RequestBuilder.SetUser | request_builder.go:72-84 | the first principal call is stored; a later one only records an error |
| RequestBuilders.RequestBuilder.SetGroup | request_builder.go:88-100 | the same, sharing the principal field |
| RequestBuilders.RequestBuilder.SetAction | request_builder.go:104-116 | the same for the action |
| RequestBuilders.RequestBuilder.SetResource | request_builder.go:120-133 | the same for the resource |
| RequestBuilders.RequestBuilder.Build | request_builder.go:137-193 | changes nothing, collects errors in order, and otherwise returns the request of the stored fields |
| RequestBuilders.RunHoldsFirstCalls | request_builder.go:72-133 | after any sequence of calls the builder holds the first call for each field and one error for each later one, in call order |
| RequestBuilders.BuildOfResults | request_builder.go:185-192 | accepted parts always make an accepted request, so the last validation never fails |
| RequestBuilders.BuildAfter | request_builder.go:137-193 | after any sequence of calls Build succeeds exactly when each field was set once and all three constructors accept; otherwise it lists the repeats, then the missing or invalid fields |
| RequestBuilders.ErrorCount | request_builder.go:137-197 | the number of errors is the number of repeated calls plus the number of missing or invalid fields |
| RequestInputs.ApplyUserInput | request_input.go:86-102 | the option loop turns the input into one User call: namespace, global groups, then qualified groups |
| RequestInputs.ApplyPrincipalInput | request_input.go:62-75 | a user or group input makes one principal call, and a nil one none |
| RequestInputs.ApplyInput | request_input.go:62-82 | on a new builder, at most one principal call, one action call and one resource call |
| RequestInputs.NewRequestFrom | request_input.go:60-84 | the outcome of Build after those calls |
| RequestInputs.NewUserFromInput | request_input.go:86-121 | the closures build exactly the described user: groups are the global ones, then the qualified ones, both in input order |
| RequestInputs.MembershipsAppend | request_input.go:91-100 | the qualified groups are appended one by one, and the first invalid one decides the error |
| RequestInputs.GroupFromInputIs | request_input.go:104-110 | a membership is the described ID in the described namespace, with the namespace checked first |
| RequestInputs.InputUserIs | request_input.go:86-121 | exactly which inputs describe a user; its groups are the global groups of the names, in order, and then one for each qualified membership, in order, with that membership's own ID and namespace segments |
| RequestInputs.NewGroupFromInput | request_input.go:69-75 | a group principal is the described ID and namespace, with the ID checked first |
| RequestInputs.NewActionFromInput | request_input.go:77 | an action is the described ID and namespace, with the ID checked first |
| RequestInputs.NewResourceFromInput | request_input.go:78-82 | a resource is the described type, ID and attributes, checked in that order; a nil attribute map is an empty one |
| RequestInputs.NewRequestFromIs | request_input.go:60-143 | the request is exactly the described principal, action and resource; otherwise no repeated field is ever reported, and at most one error for each of the three fields, in order |
| Bounds.LimitedBuffer.constructor | transport.go:166-167 | an empty buffer with its limit |
| Bounds.LimitedBuffer.Write | transport.go:186-191 | a write is accepted exactly when the result fits; a refused one changes nothing; the subtraction stays within 64 bits |
| Bounds.WriteEach | transport.go:181-191 | over any sequence of writes the buffer holds the accepted ones and never exceeds its limit |
| Bounds.WholeDocumentIff | transport.go:181-191 | however a document is cut into writes, all of it is held exactly when it fits |
| Bounds.EncodeJSONBounded | transport.go:166-177 | succeeds exactly when the document and one newline fit |
| Bounds.ReadAllLimited | transport.go:155-159 | a limited reader delivers the whole body or its prefix, for every chunking, and fails only before the limit |
| Bounds.ReadBounded | transport.go:146-164 | below the largest limit, the whole body exactly when neither declared nor actual length exceeds the limit and reading does not fail; one byte more than the limit is ever held |
| Bounds.ContextDepth | authorization_request.go:260-265 | the running maximum is the greatest height in the context, in every map order |
| Bounds.ValidateLimits | authorization_request.go:249-290 | accepts exactly the batches within every limit; names the first request over one and says which; its last size check never fires |
| Responses.ValidateDecision | response_types.go:296-339 | accepts exactly a decision under the batch version that agrees with its complete policies; each error says what failed, and where |
| Responses.ValidateStructure | response_types.go:256-294 | accepts exactly when length, version, indices, tags, decisions and both counts are right; an error names the first bad item |
| Responses.ValidateResponse | response_types.go:242-254 | in addition every result carries its request's own ID, or none; an error names the first that does not |
| Responses.FindByID | response_types.go:220-230 | the loop returns the first result with the ID |
| Responses.FirstFromIsFirst | response_types.go:220-230 | what it returns carries the ID, and nothing before it does |
| Responses.FindByIDIsCorrelation | response_types.go:220-254 | against an accepted response to a valid batch, an ID is found exactly when a request carries it; the result is at the position of the only such request and is the only result with that ID |
| Responses.OneVersionPerBatch | response_types.go:32-37 | any two successful items of an accepted response agree on all four version fields, with each other and with the batch |
| ResponseCodec.ItemRoundTripIff | response_types.go:102-203 | for every payload codec that round-trips, decoding undoes encoding on every accepted item exactly when it is not a success whose payload encodes to null |
| ResponseCodec.NullPayloadRejected | response_types.go:102-155 | a round-tripping payload codec and a success that the encoder accepts and the decoder rejects |
| ResponseCodec.DecodedItemIsTagged | response_types.go:126-203 | an accepted item holds exactly one of a result and an error, and the encoder accepts it again |
| ResponseCodec.DecodeItemIff | response_types.go:126-203 | exactly which objects decode to an item: an index, an ID or none, and either a result without an error or an error without a result |
| ResponseCodec.VersionRoundTripIff | response_validation.go:34-73 | a version decodes from its own encoding exactly when it has a hash and a load time, and is then equal to the original |
| ResponseCodec.DecodeVersionIff | response_validation.go:17-73 | exactly which objects decode, and to which version: both new fields present, the label set null or text, the generation an unsigned 64-bit integer, hash and load time not empty |
| ResponseCodec.OlderVersionRefused | response_validation.go:53-60 | an object with only a hash and a load time never decodes |
| ResponseCodec.ParsedDecision | response_validation.go:149-167 | a decision is Allow or Deny exactly when it is spelled so, and otherwise keeps its text |
| ResponseCodec.DecodeBriefIff | response_validation.go:149-167 | exactly which objects decode to a brief decision: all three fields required, the decision read from its text |
| ResponseCodec.DecodeResponseIff | response_validation.go:193-212 | exactly which objects decode to a response: all four fields required |
| ResponseCodec.BriefRoundTrip | response_validation.go:149-167 | every Allow or Deny decision under a present version decodes from its own encoding |
| ResponseCodec.BriefResponseRoundTrip | response_validation.go:193-212 | every accepted brief response, encoded again, decodes to itself |
| Client.Authorize | endpoints.go:77-89 | succeeds exactly when the batch may be sent and the reply is a response that every check accepts for it, and returns that response; each error says which step failed after all earlier ones passed, and encoding never does |
| Client.IsAllowed | endpoints.go:108-125 | true exactly for an accepted one-item reply that decides Allow, false exactly for one that decides Deny, an evaluation error exactly for one that failed, an invalid value exactly for an invalid request; the result is present where it is read |
| Client.AllowedMeans | endpoints.go:108-125 | behind a true answer the reply's document has one result, a success for position 0 without an ID, whose decision field is the text Allow and whose policy_id is not empty; hash, load time, label set and generation are those of the batch |
| Client.DeniedMeans | endpoints.go:108-125 | behind a false answer the same, with the text Deny and an empty policy_id |
| Client.PlainIsSent | authorization_request.go:194-200 | a single request is sent as a valid batch of one item with exactly the three parts of the request |
| PercentEncoding.UnescapeOfEscape | client.go:156-162 | decoding undoes escaping, for every set of bytes that is kept |
| PercentEncoding.KeptAndAllowed | client.go:156-162 | which characters a segment keeps and an escaped path may hold, against the path characters of section 3.3 of RFC 3986 |
| PercentEncoding.EscapedBytes | client.go:156-162 | escaped text holds kept bytes, percent signs and upper-case hexadecimal digits only |
| PercentEncoding.DecodedSlashIff | client.go:137-140 | a decoded text ends with a slash exactly when the escaped one ends with a slash, plain or escaped |
| Endpoints.EscapePath | client.go:156-162 | escaping segment by segment escapes every byte but the slashes between segments |
| Endpoints.EscapedPathDecodes | client.go:99 | the escaped path of any URL decodes to its path |
| Endpoints.ParsedPathKeptIff | client.go:121 | before normalization the escaped path is what the caller wrote, except for one with other bytes and for an escaped star alone |
| Endpoints.RootEndpointInStep | client.go:95-103 | for every accepted base and every path, the escaped form is a valid encoding of the decoded one |
| Endpoints.RootEndpointIs | client.go:95-103 | both forms of the base are extended by the path without its leading slash, decoded and escaped |
| Endpoints.EndpointIs | client.go:91-93 | the same below api/v1 |
| Endpoints.UserAcceptedIff | client.go:105-111 | an unsafe user is refused, then an empty one and the dot segments, and no other |
| Endpoints.UserEndpointIs | client.go:105-118 | exactly the safe users but the empty and the dot ones are accepted; the endpoint is in step, below the base and the policies directory; its last escaped segment has no slash, decodes to exactly the user, and is no dot segment |
| Endpoints.UserEndpointsDistinct | client.go:105-118 | distinct users have distinct escaped endpoints, for every accepted base |
| Endpoints.NormalizedForms | client.go:137-140 | normalization trims the two forms of a path alike exactly when the escaped one keeps no escaped slash at its end |
| Endpoints.PrefixPreservedIff | client.go:137-140 | the caller's escaped prefix is kept, up to trailing slashes, exactly when it contains only bytes that an escaped path may contain and what remains does not end with an escaped slash |
| Endpoints.OtherBytesReencode | client.go:99 | a prefix with any other byte is encoded anew from its decoded path |
| Endpoints.InnerSlashLost | client.go:137-140 | in such a prefix an escaped slash becomes a separator wherever it stands |
| Endpoints.InnerSlashExample | client.go:137-140 | one such prefix in full: an escaped slash, and later a plain vertical bar |
| Endpoints.EscapedSlashLost | client.go:137-140 | every prefix that ends with an escaped slash, in either case of its digit, loses it |
| Endpoints.UserEndpointOfBase | client.go:105-140 | for every base path that parses: exactly the safe one-segment users are accepted; the endpoint is in step, its last escaped segment is the user, and it is the written prefix, the directory and the user exactly when the prefix is preserved |
| Utf8.SafeUserIff | validation.go:59-66 | on the UTF-8 bytes of a text the check of user IDs gives the verdict of the check on its characters |
| Utf8.EncodeInjective | client.go:105-118 | distinct texts have distinct bytes |
| Utf8.TextUserEndpoints | client.go:105-118 | for users as text: exactly the safe ones but the empty and the dot ones are accepted, and distinct ones have distinct endpoints |

## Left out

- HTTP transport, TLS, timeouts, redirects, headers, client options and the uploader: foreign calls without logic of their own.
- JSON text: syntax, escaping, number spelling (such as a negative zero), duplicate keys, case-insensitive keys, and field order; documents are trees, and printing is a parameter.
- The nesting limit of encoding/json, 10000 levels in decoding and in compacting what MarshalJSON returns: a valid value nested some 5000 sets deep encodes only in the plain form and never decodes. Trees have any depth here.
- The replacement of invalid UTF-8 before an error message is redacted (`transport.go:132`). The redaction results hold for every message, so also for a repaired one; but an upload token with bytes of 0x80 or above may be altered by the repair, and then its other bytes are not removed.
- Invalid UTF-8 in strings of the request domain; tokens, redaction, URLs and sizes work on bytes, written as the characters with the same codes.
- IP and CIDR parsing, timestamp formats and URL parsing: parameters or inputs. Of `parseBaseURL` only the path is modelled.
- Decoders for metadata, bundles, status, version information, user policies and detailed decisions: required-field checks that one reading settles. Detailed decisions are covered by the response checks, not by the codec.
- Error texts. Errors are kinds with positions; codec errors are `None`; an error in an unordered map is one kind, because Go may report any of the offending entries.
- Token destruction, formatting methods, copies and accessors.
- Query strings of the user-policy endpoint and its filters.
- Nil receivers of the builder and of batches, a nil slice of results, and aliasing between a caller's slices and the package's copies.
- Options are functions from a value to a new value or an error; an option closure with other side effects is not modelled.
- Redaction.SortByLength: `sort.Slice` is modelled by its contract, as a sort that need not be stable.
- Bounds.ReadAllLimited: a reader that returns data together with an error in one read is modelled as failing in the read after it.
