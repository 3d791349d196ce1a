/** Cedar identifiers, "::"-separated paths, namespaces and entity types. */
module CedarPath {
  import opened Results

  const RESERVED: set<string> := {"true", "false", "if", "then", "else", "in", "like", "has", "is", "__cedar"}

  datatype IdentifierError = ReservedIdentifier | NotIdentifier

  predicate Letter(c: char) {
    c == '_' || 'a' <= c <= 'z' || 'A' <= c <= 'Z'
  }

  predicate LetterOrDigit(c: char) {
    Letter(c) || '0' <= c <= '9'
  }

  predicate Spelling(value: string) {
    value != "" && Letter(value[0]) && forall i :: 1 <= i < |value| ==> LetterOrDigit(value[i])
  }

  function IdentifierProblem(value: string): Option<IdentifierError> {
    if value in RESERVED then Some(ReservedIdentifier)
    else if !Spelling(value) then Some(NotIdentifier)
    else None
  }

  /** The problem of the first segment that has one. */
  function FirstProblem(segments: seq<string>): Option<IdentifierError> {
    if segments == [] then None
    else if IdentifierProblem(segments[0]).Some? then IdentifierProblem(segments[0])
    else FirstProblem(segments[1..])
  }

  ghost predicate AllIdentifiers(segments: seq<string>) {
    forall s :: s in segments ==> s !in RESERVED && Spelling(s)
  }

  // ---- strings.Index, strings.Split and strings.Join with separator "::" ----

  function SeparatorIndex(value: string): (k: int)
    ensures -1 <= k
    ensures k >= 0 ==> k + 2 <= |value| && value[k] == value[k + 1] == ':'
    ensures forall i :: 0 <= i < |value| - 1 && (k < 0 || i < k) ==> !(value[i] == value[i + 1] == ':')
  {
    if |value| < 2 then -1
    else if value[0] == value[1] == ':' then 0
    else
      var k := SeparatorIndex(value[1..]);
      if k < 0 then -1 else k + 1
  }

  function Split(value: string): (segments: seq<string>)
    ensures segments != []
    decreases |value|
  {
    var k := SeparatorIndex(value);
    if k < 0 then [value] else [value[..k]] + Split(value[k + 2..])
  }

  function Join(segments: seq<string>): string {
    if segments == [] then ""
    else if |segments| == 1 then segments[0]
    else segments[0] + "::" + Join(segments[1..])
  }

  // ---- Validation ----

  /** The switch over the reserved words. */
  method IsReservedCedarIdentifier(value: string) returns (reserved: bool)
    ensures reserved <==> value in RESERVED
  {
    if value == "true" || value == "false" || value == "if" || value == "then" || value == "else" {
      return true;
    }
    return value == "in" || value == "like" || value == "has" || value == "is" || value == "__cedar";
  }

  method AsciiLetterOrUnderscore(b: char) returns (letter: bool)
    ensures letter <==> Letter(b)
  {
    return b == '_' || ('a' <= b && b <= 'z') || ('A' <= b && b <= 'Z');
  }

  method AsciiLetterDigitOrUnderscore(b: char) returns (allowed: bool)
    ensures allowed <==> LetterOrDigit(b)
  {
    allowed := AsciiLetterOrUnderscore(b);
    return allowed || ('0' <= b && b <= '9');
  }

  method ValidateCedarIdentifier(value: string) returns (problem: Option<IdentifierError>)
    ensures problem == IdentifierProblem(value)
  {
    var reserved := IsReservedCedarIdentifier(value);
    if reserved {
      return Some(ReservedIdentifier);
    }
    if value == "" {
      return Some(NotIdentifier);
    }
    var allowed := AsciiLetterOrUnderscore(value[0]);
    if !allowed {
      return Some(NotIdentifier);
    }
    for i := 1 to |value|
      invariant forall j :: 1 <= j < i ==> LetterOrDigit(value[j])
    {
      allowed := AsciiLetterDigitOrUnderscore(value[i]);
      if !allowed {
        return Some(NotIdentifier);
      }
    }
    return None;
  }

  /** The in-place scanner: agrees with splitting first and validating every segment. */
  method ValidateCedarPath(path: string) returns (problem: Option<IdentifierError>)
    ensures problem == FirstProblem(Split(path))
  {
    var value := path;
    while true
      invariant FirstProblem(Split(value)) == FirstProblem(Split(path))
      decreases |value|
    {
      var separator := SeparatorIndex(value);
      var segment := value;
      if separator >= 0 {
        segment := value[..separator];
      }
      problem := ValidateCedarIdentifier(segment);
      if problem.Some? {
        return;
      }
      if separator < 0 {
        return None;
      }
      value := value[separator + 2..];
    }
  }

  method ValidateNamespaceSegments(segments: seq<string>) returns (problem: Option<IdentifierError>)
    ensures problem == FirstProblem(segments)
  {
    for i := 0 to |segments|
      invariant FirstProblem(segments) == FirstProblem(segments[i..])
    {
      problem := ValidateCedarIdentifier(segments[i]);
      if problem.Some? {
        return;
      }
      assert segments[i..][1..] == segments[i + 1..];
    }
    return None;
  }

  // ---- Namespace and EntityType ----

  /** The zero value is the global namespace. */
  datatype Namespace = Namespace(path: string)

  datatype EntityType = EntityType(name: string)

  const GLOBAL := Namespace("")

  function NewNamespace(segments: seq<string>): Result<Namespace, IdentifierError> {
    var problem := FirstProblem(segments);
    if problem.Some? then Err(problem.value) else Ok(Namespace(Join(segments)))
  }

  function ParseNamespace(value: string): Result<Namespace, IdentifierError> {
    if value == "" then Ok(GLOBAL) else NewNamespace(Split(value))
  }

  function Segments(n: Namespace): seq<string> {
    if n.path == "" then [] else Split(n.path)
  }

  function NamespaceProblem(n: Namespace): Option<IdentifierError> {
    if n.path == "" then None else FirstProblem(Split(n.path))
  }

  function NewEntityType(value: string): Result<EntityType, IdentifierError> {
    var problem := FirstProblem(Split(value));
    if problem.Some? then Err(problem.value) else Ok(EntityType(value))
  }

  function EntityTypeProblem(t: EntityType): Option<IdentifierError> {
    FirstProblem(Split(t.name))
  }

  // ---- Splitting undoes joining ----

  lemma {:induction false} JoinOfSplit(value: string)
    ensures Join(Split(value)) == value
    decreases |value|
  {
    var k := SeparatorIndex(value);
    if k >= 0 {
      var rest := Split(value[k + 2..]);
      JoinOfSplit(value[k + 2..]);
      assert ([value[..k]] + rest)[1..] == rest;
      assert value == value[..k] + "::" + value[k + 2..];
    }
  }

  lemma SplitAfterSegment(segment: string, rest: string)
    requires ':' !in segment
    ensures Split(segment + "::" + rest) == [segment] + Split(rest)
  {
    var value := segment + "::" + rest;
    var k := SeparatorIndex(value);
    assert value[|segment|] == value[|segment| + 1] == ':';
    assert forall i :: 0 <= i < |segment| ==> value[i] == segment[i];
    assert k == |segment|;
    assert value[..k] == segment;
    assert value[k + 2..] == rest;
  }

  lemma {:induction false} SplitOfJoin(segments: seq<string>)
    requires segments != []
    requires forall s :: s in segments ==> ':' !in s
    ensures Split(Join(segments)) == segments
  {
    if |segments| == 1 {
      assert segments == [segments[0]];
      assert Join(segments) == segments[0] && segments[0] in segments;
      assert SeparatorIndex(segments[0]) < 0;
    } else {
      SplitOfJoin(segments[1..]);
      SplitAfterSegment(segments[0], Join(segments[1..]));
      assert segments == [segments[0]] + segments[1..];
    }
  }

  lemma {:induction false} FirstProblemNoneIff(segments: seq<string>)
    ensures FirstProblem(segments).None? <==> AllIdentifiers(segments)
  {
    if segments != [] {
      FirstProblemNoneIff(segments[1..]);
      assert segments == [segments[0]] + segments[1..];
    }
  }

  /** The problem that is reported is that of the first segment with one. */
  lemma {:induction false} FirstProblemIs(segments: seq<string>, k: nat)
    requires k < |segments| && AllIdentifiers(segments[..k])
    requires segments[k] in RESERVED || !Spelling(segments[k])
    ensures FirstProblem(segments) == Some(if segments[k] in RESERVED then ReservedIdentifier else NotIdentifier)
  {
    if k > 0 {
      assert segments[0] in segments[..k];
      assert forall s :: s in segments[1..][..k - 1] ==> s in segments[..k];
      FirstProblemIs(segments[1..], k - 1);
    }
  }

  /** A namespace is made of exactly the lists of identifiers; otherwise the error is that of the first bad segment. */
  lemma NewNamespaceIs(segments: seq<string>)
    ensures NewNamespace(segments).Ok? <==> AllIdentifiers(segments)
    ensures NewNamespace(segments).Ok? ==> NewNamespace(segments).value.path == Join(segments)
    ensures NewNamespace(segments).Err? ==>
              exists k :: 0 <= k < |segments| && FirstBadSegment(segments, k, NewNamespace(segments).error)
  {
    FirstProblemNoneIff(segments);
    if FirstProblem(segments).Some? {
      var k := FirstBad(segments);
      FirstProblemIs(segments, k);
      assert FirstBadSegment(segments, k, NewNamespace(segments).error);
    }
  }

  ghost predicate FirstBadSegment(segments: seq<string>, k: int, error: IdentifierError) {
    && 0 <= k < |segments| && AllIdentifiers(segments[..k])
    && match error
       case ReservedIdentifier => segments[k] in RESERVED
       case NotIdentifier => segments[k] !in RESERVED && !Spelling(segments[k])
  }

  lemma {:induction false} FirstBad(segments: seq<string>) returns (k: nat)
    requires FirstProblem(segments).Some?
    ensures k < |segments| && AllIdentifiers(segments[..k])
    ensures segments[k] in RESERVED || !Spelling(segments[k])
  {
    if IdentifierProblem(segments[0]).Some? {
      k := 0;
    } else {
      k := FirstBad(segments[1..]);
      assert segments[..k + 1] == [segments[0]] + segments[1..][..k];
      k := k + 1;
    }
  }

  /** Parsing and entity types fail with the same error as their segments. */
  lemma PathErrors(value: string)
    requires value != ""
    ensures ParseNamespace(value).Ok? <==> AllIdentifiers(Split(value))
    ensures NewEntityType(value).Ok? <==> AllIdentifiers(Split(value))
    ensures NewEntityType(value).Ok? ==> NewEntityType(value).value.name == value
    ensures NewEntityType(value).Err? ==>
              && ParseNamespace(value) == Err(NewEntityType(value).error)
              && exists k :: FirstBadSegment(Split(value), k, NewEntityType(value).error)
  {
    NewNamespaceIs(Split(value));
    if NewEntityType(value).Err? {
      var k :| FirstBadSegment(Split(value), k, NewNamespace(Split(value)).error);
    }
  }

  /** Joining accepted segments and splitting the path again loses nothing, so distinct lists have distinct paths. */
  lemma SegmentsOfNewNamespace(segments: seq<string>)
    requires NewNamespace(segments).Ok?
    ensures Segments(NewNamespace(segments).value) == segments
    ensures NamespaceProblem(NewNamespace(segments).value).None?
  {
    FirstProblemNoneIff(segments);
    if segments != [] {
      assert segments[0] in segments;
      SplitOfJoin(segments);
      JoinIsLong(segments);
    }
  }

  lemma JoinIsLong(segments: seq<string>)
    requires segments != []
    ensures |Join(segments)| >= |segments[0]|
  {
  }

  lemma NewNamespaceInjective(a: seq<string>, b: seq<string>)
    requires NewNamespace(a).Ok? && NewNamespace(b).Ok?
    ensures NewNamespace(a) == NewNamespace(b) <==> a == b
  {
    SegmentsOfNewNamespace(a);
    SegmentsOfNewNamespace(b);
  }

  /** Parsing is a left inverse of String on valid namespaces, and accepts exactly the paths of valid namespaces. */
  lemma ParseNamespaceIff(value: string, n: Namespace)
    ensures ParseNamespace(value) == Ok(n) <==> n.path == value && NamespaceProblem(n).None?
  {
    JoinOfSplit(value);
  }

  /** A string is an entity type exactly when it is the path of a namespace other than the global one. */
  lemma EntityTypeIff(value: string)
    ensures NewEntityType(value).Ok? <==> value != "" && ParseNamespace(value).Ok?
  {
    assert Split("") == [""];
  }

  /** A path is accepted exactly when it joins one or more identifiers. */
  lemma AcceptedPathIff(value: string)
    ensures FirstProblem(Split(value)).None? <==>
            exists segments :: segments != [] && AllIdentifiers(segments) && Join(segments) == value
  {
    FirstProblemNoneIff(Split(value));
    JoinOfSplit(value);
    forall segments | segments != [] && AllIdentifiers(segments)
      ensures Split(Join(segments)) == segments
    {
      SplitOfJoin(segments);
    }
  }
}
