/** Cedar attribute values: arbitrarily nested tagged trees, checked and measured with explicit work stacks. */
module AttrValues {
  import opened Results
  import opened Sequences

  type int64 = n: int | -0x8000_0000_0000_0000 <= n < 0x8000_0000_0000_0000

  datatype AttrType = StringType | BoolType | LongType | IpType | SetType | OtherType(name: string)

  /** The Go field of type any. NilElements is the nil slice of type []AttrValue, which counts as a set without
      elements but is not the same JSON as an empty one. */
  datatype Payload =
    | NoPayload
    | Str(s: string)
    | Boolean(b: bool)
    | Long(n: int64)
    | Elements(values: seq<AttrValue>)
    | NilElements

  datatype AttrValue = AttrValue(typeName: AttrType, value: Payload)

  datatype AttrError = TagMismatch(tag: AttrType) | InvalidIP(text: string) | UnsupportedTag(tag: AttrType)

  /** net.ParseIP and net.ParseCIDR are foreign: any predicate on strings may stand for them. */
  type IPCheck = string -> bool

  function Children(v: AttrValue): (values: seq<AttrValue>)
    ensures forall c :: c in values ==> c < v
  {
    if v.typeName.SetType? && v.value.Elements? then v.value.values else []
  }

  function NodeProblem(v: AttrValue, validIP: IPCheck): Option<AttrError> {
    match v.typeName
    case StringType => if v.value.Str? then None else Some(TagMismatch(v.typeName))
    case BoolType => if v.value.Boolean? then None else Some(TagMismatch(v.typeName))
    case LongType => if v.value.Long? then None else Some(TagMismatch(v.typeName))
    case IpType =>
      if !v.value.Str? then Some(TagMismatch(v.typeName))
      else if !validIP(v.value.s) then Some(InvalidIP(v.value.s))
      else None
    case SetType => if v.value.Elements? || v.value.NilElements? then None else Some(TagMismatch(v.typeName))
    case OtherType(_) => Some(UnsupportedTag(v.typeName))
  }

  /** Every node of the tree has a payload that fits its tag. */
  predicate WellFormed(v: AttrValue, validIP: IPCheck) {
    NodeProblem(v, validIP).None? && forall c :: c in Children(v) ==> WellFormed(c, validIP)
  }

  // ---- Validation order ----

  /** All nodes below a stack of pending values, in the order in which popping from the end meets them. */
  function VisitOrder(pending: seq<AttrValue>): seq<AttrValue>
    decreases NodeCount(pending)
  {
    if pending == [] then []
    else
      var last := |pending| - 1;
      CountLast(pending);
      RightToLeftPreorder(pending[last]) + VisitOrder(pending[..last])
  }

  function RightToLeftPreorder(v: AttrValue): seq<AttrValue>
    decreases Size(v), 0
  {
    [v] + VisitOrder(Children(v))
  }

  function FirstProblem(nodes: seq<AttrValue>, validIP: IPCheck): Option<AttrError> {
    if nodes == [] then None
    else if NodeProblem(nodes[0], validIP).Some? then NodeProblem(nodes[0], validIP)
    else FirstProblem(nodes[1..], validIP)
  }

  /** The number of nodes of a tree, and of a list of trees. */
  function Size(v: AttrValue): nat {
    if v.typeName.SetType? && v.value.Elements? then 1 + NodeCount(v.value.values) else 1
  }

  function NodeCount(values: seq<AttrValue>): nat {
    if values == [] then 0 else Size(values[0]) + NodeCount(values[1..])
  }

  lemma {:induction false} CountConcat(a: seq<AttrValue>, b: seq<AttrValue>)
    ensures NodeCount(a + b) == NodeCount(a) + NodeCount(b)
  {
    if a == [] {
      assert a + b == b;
    } else {
      assert (a + b)[1..] == a[1..] + b;
      CountConcat(a[1..], b);
    }
  }

  lemma CountLast(values: seq<AttrValue>)
    requires values != []
    ensures var last := |values| - 1;
            NodeCount(values) == NodeCount(values[..last]) + Size(values[last])
  {
    var last := |values| - 1;
    assert values == values[..last] + [values[last]];
    CountConcat(values[..last], [values[last]]);
  }

  lemma {:induction false} VisitConcat(a: seq<AttrValue>, b: seq<AttrValue>)
    ensures VisitOrder(a + b) == VisitOrder(b) + VisitOrder(a)
    decreases |b|
  {
    if b == [] {
      assert a + b == a;
    } else {
      var last := |b| - 1;
      assert (a + b)[..|a + b| - 1] == a + b[..last];
      VisitConcat(a, b[..last]);
      Assoc(RightToLeftPreorder(b[last]), VisitOrder(b[..last]), VisitOrder(a));
    }
  }

  lemma {:induction false} FirstProblemConcat(a: seq<AttrValue>, b: seq<AttrValue>, validIP: IPCheck)
    ensures FirstProblem(a + b, validIP) ==
            if FirstProblem(a, validIP).Some? then FirstProblem(a, validIP) else FirstProblem(b, validIP)
  {
    if a == [] {
      assert a + b == b;
    } else {
      assert (a + b)[1..] == a[1..] + b;
      FirstProblemConcat(a[1..], b, validIP);
    }
  }

  /** AttrValue.Validate. It reports the problem of the first bad node in right-to-left preorder. */
  method Validate(v: AttrValue, validIP: IPCheck) returns (problem: Option<AttrError>)
    ensures problem == FirstProblem(RightToLeftPreorder(v), validIP)
    ensures problem.None? <==> WellFormed(v, validIP)
  {
    ProblemIff(v, validIP);
    var pending := [v];
    assert VisitOrder(pending) == RightToLeftPreorder(v) + VisitOrder([]) == RightToLeftPreorder(v);
    while pending != []
      invariant FirstProblem(VisitOrder(pending), validIP) == FirstProblem(RightToLeftPreorder(v), validIP)
      decreases NodeCount(pending)
    {
      var last := |pending| - 1;
      var current := pending[last];
      PopVisit(pending, validIP);
      pending := pending[..last];
      match current.typeName
      case StringType =>
        if !current.value.Str? {
          return Some(TagMismatch(current.typeName));
        }
      case BoolType =>
        if !current.value.Boolean? {
          return Some(TagMismatch(current.typeName));
        }
      case LongType =>
        if !current.value.Long? {
          return Some(TagMismatch(current.typeName));
        }
      case IpType =>
        if !current.value.Str? {
          return Some(TagMismatch(current.typeName));
        }
        if !validIP(current.value.s) {
          return Some(InvalidIP(current.value.s));
        }
      case SetType =>
        if !current.value.Elements? && !current.value.NilElements? {
          return Some(TagMismatch(current.typeName));
        }
        pending := pending + Children(current);
      case OtherType(_) =>
        return Some(UnsupportedTag(current.typeName));
    }
    return None;
  }

  lemma PopVisit(pending: seq<AttrValue>, validIP: IPCheck)
    requires pending != []
    ensures var last := |pending| - 1;
            var rest := pending[..last] + Children(pending[last]);
            && FirstProblem(VisitOrder(pending), validIP) ==
               (if NodeProblem(pending[last], validIP).Some? then NodeProblem(pending[last], validIP)
                else FirstProblem(VisitOrder(rest), validIP))
            && NodeCount(rest) < NodeCount(pending)
            && (Children(pending[last]) == [] ==> rest == pending[..last])
  {
    var last := |pending| - 1;
    var below := Children(pending[last]);
    CountLast(pending);
    CountConcat(pending[..last], below);
    VisitConcat(pending[..last], below);
    Assoc([pending[last]], VisitOrder(below), VisitOrder(pending[..last]));
    FirstProblemConcat([pending[last]], VisitOrder(pending[..last] + below), validIP);
  }

  lemma {:induction false} ProblemIff(v: AttrValue, validIP: IPCheck)
    ensures FirstProblem(RightToLeftPreorder(v), validIP).None? <==> WellFormed(v, validIP)
    decreases Size(v), 0
  {
    FirstProblemConcat([v], VisitOrder(Children(v)), validIP);
    ProblemsIff(Children(v), validIP);
  }

  lemma {:induction false} ProblemsIff(values: seq<AttrValue>, validIP: IPCheck)
    ensures FirstProblem(VisitOrder(values), validIP).None? <==> forall c :: c in values ==> WellFormed(c, validIP)
    decreases NodeCount(values)
  {
    if values != [] {
      var last := |values| - 1;
      CountLast(values);
      FirstProblemConcat(RightToLeftPreorder(values[last]), VisitOrder(values[..last]), validIP);
      ProblemIff(values[last], validIP);
      ProblemsIff(values[..last], validIP);
      assert values == values[..last] + [values[last]];
    }
  }

  // ---- Depth ----

  /** The recursive height: one more than the tallest element. */
  function Height(v: AttrValue): nat {
    if v.typeName.SetType? && v.value.Elements? then 1 + MaxHeight(v.value.values) else 1
  }

  function MaxHeight(values: seq<AttrValue>): nat {
    if values == [] then 0 else Max(Height(values[0]), MaxHeight(values[1..]))
  }

  function Max(a: int, b: int): int {
    if a < b then b else a
  }

  datatype Pending = Pending(value: AttrValue, depth: nat)

  /** The depth that the pending items can still reach. */
  function Reach(pending: seq<Pending>): int {
    if pending == [] then 0
    else Max(pending[0].depth - 1 + Height(pending[0].value), Reach(pending[1..]))
  }

  function At(depth: nat, values: seq<AttrValue>): seq<Pending> {
    seq(|values|, i requires 0 <= i < |values| => Pending(values[i], depth))
  }

  function Values(pending: seq<Pending>): seq<AttrValue> {
    seq(|pending|, i requires 0 <= i < |pending| => pending[i].value)
  }

  lemma {:induction false} ReachConcat(a: seq<Pending>, b: seq<Pending>)
    requires forall p :: p in a ==> p.depth > 0
    ensures Reach(a + b) == Max(Reach(a), Reach(b))
  {
    if a == [] {
      assert a + b == b;
      ReachNonNegative(b);
    } else {
      assert (a + b)[1..] == a[1..] + b;
      ReachConcat(a[1..], b);
    }
  }

  lemma {:induction false} ReachNonNegative(pending: seq<Pending>)
    ensures Reach(pending) >= 0
  {
    if pending != [] {
      ReachNonNegative(pending[1..]);
    }
  }

  lemma {:induction false} ReachAt(depth: nat, values: seq<AttrValue>)
    requires depth > 0
    ensures Reach(At(depth, values)) == if values == [] then 0 else depth - 1 + MaxHeight(values)
  {
    if values != [] {
      assert At(depth, values)[1..] == At(depth, values[1..]);
      ReachAt(depth, values[1..]);
    }
  }

  /** Replacing an item by its elements, one level deeper, loses no depth beyond the item's own. */
  lemma PopReach(rest: seq<Pending>, current: Pending)
    requires forall p :: p in rest ==> p.depth > 0
    requires current.depth > 0
    ensures Reach(rest + [current]) ==
            Max(current.depth, Reach(rest + At(current.depth + 1, Children(current.value))))
  {
    ReachConcat(rest, [current]);
    ReachConcat(rest, At(current.depth + 1, Children(current.value)));
    ReachAt(current.depth + 1, Children(current.value));
    ReachNonNegative(rest);
    assert Height(current.value) == 1 + MaxHeight(Children(current.value));
    assert Reach([current]) == Max(current.depth - 1 + Height(current.value), Reach([]));
  }

  lemma PopCount(rest: seq<Pending>, current: Pending)
    ensures NodeCount(Values(rest + At(current.depth + 1, Children(current.value)))) <
            NodeCount(Values(rest + [current]))
  {
    var values := Children(current.value);
    assert Values(rest + [current]) == Values(rest) + [current.value];
    assert Values(rest + At(current.depth + 1, values)) == Values(rest) + values;
    CountConcat(Values(rest), [current.value]);
    CountConcat(Values(rest), values);
  }

  /** The explicit-stack depth is the recursive height. */
  method AttrDepth(root: AttrValue) returns (maximum: nat)
    ensures maximum == Height(root)
  {
    maximum := 0;
    var pending := [Pending(root, 1)];
    while pending != []
      invariant forall p :: p in pending ==> p.depth > 0
      invariant Max(maximum, Reach(pending)) == Height(root)
      decreases NodeCount(Values(pending))
    {
      var last := |pending| - 1;
      var current := pending[last];
      ghost var rest := pending[..last];
      assert pending == rest + [current];
      PopReach(rest, current);
      PopCount(rest, current);
      pending := pending[..last];
      if current.depth > maximum {
        maximum := current.depth;
      }
      if current.value.typeName.SetType? && current.value.value.Elements? {
        var values := current.value.value.values;
        for i := 0 to |values|
          invariant pending == rest + At(current.depth + 1, values[..i])
        {
          pending := pending + [Pending(values[i], current.depth + 1)];
        }
        assert values[..|values|] == values;
      }
      assert pending == rest + At(current.depth + 1, Children(current.value));
    }
  }

  // ---- Constructors ----

  function StringValue(s: string): AttrValue { AttrValue(StringType, Str(s)) }

  function BoolValue(b: bool): AttrValue { AttrValue(BoolType, Boolean(b)) }

  function LongValue(n: int64): AttrValue { AttrValue(LongType, Long(n)) }

  function IPValue(s: string, validIP: IPCheck): Result<AttrValue, AttrError> {
    if validIP(s) then Ok(AttrValue(IpType, Str(s))) else Err(InvalidIP(s))
  }

  function SetValue(values: seq<AttrValue>): AttrValue { AttrValue(SetType, Elements(values)) }

  /** No set in the tree is a nil slice. */
  predicate NoNilSets(v: AttrValue) {
    !v.value.NilElements? && forall c :: c in Children(v) ==> NoNilSets(c)
  }

  /** The well-formed values without nil sets are exactly what the package's constructors can build. */
  ghost predicate Built(v: AttrValue, validIP: IPCheck) {
    || (exists s :: v == StringValue(s))
    || (exists b :: v == BoolValue(b))
    || (exists n :: v == LongValue(n))
    || (exists s :: IPValue(s, validIP) == Ok(v))
    || (v == SetValue(Children(v)) && forall c :: c in Children(v) ==> Built(c, validIP))
  }

  lemma {:induction false} BuiltIff(v: AttrValue, validIP: IPCheck)
    ensures Built(v, validIP) <==> WellFormed(v, validIP) && NoNilSets(v)
  {
    forall c | c in Children(v)
      ensures Built(c, validIP) <==> WellFormed(c, validIP) && NoNilSets(c)
    {
      BuiltIff(c, validIP);
    }
    match v.value
    case Str(s) => assert v == StringValue(s) || IPValue(s, validIP) == Ok(v) || !WellFormed(v, validIP);
    case Boolean(b) => assert v == BoolValue(b) || !WellFormed(v, validIP);
    case Long(n) => assert v == LongValue(n) || !WellFormed(v, validIP);
    case Elements(values) => assert v == SetValue(Children(v)) || !WellFormed(v, validIP);
    case _ =>
  }
}
