/** Size limits: the bounded write buffer, the bounded reader and the request-context limits. */
module Bounds {
  import opened Results
  import opened Bytes
  import opened Sequences
  import opened AttrValues
  import opened Json
  import opened Batches
  import opened Wire

  const MAX_INT64: int := 0x7fff_ffff_ffff_ffff

  const NEWLINE: bytes := "\n"

  function Concat(chunks: seq<bytes>): bytes {
    if chunks == [] then [] else chunks[0] + Concat(chunks[1..])
  }

  lemma {:induction false} ConcatAppend(chunks: seq<bytes>, chunk: bytes)
    ensures Concat(chunks + [chunk]) == Concat(chunks) + chunk
  {
    if chunks == [] {
      assert chunks + [chunk] == [chunk];
      assert [chunk][1..] == [];
      assert chunk + [] == chunk;
    } else {
      assert (chunks + [chunk])[1..] == chunks[1..] + [chunk];
      ConcatAppend(chunks[1..], chunk);
      Assoc(chunks[0], Concat(chunks[1..]), chunk);
    }
  }

  // ---- limitedBuffer ----

  class LimitedBuffer {
    var data: bytes
    const limit: int64

    constructor (limit: int64)
      ensures this.limit == limit && data == [] && Valid()
    {
      this.limit := limit;
      data := [];
    }

    ghost predicate Valid()
      reads this
    {
      data == [] || |data| <= limit
    }

    /** Accepts a write exactly when the result still fits. The subtraction stays within int64, and a refused write
        changes nothing. */
    method Write(value: bytes) returns (written: nat, accepted: bool)
      requires Valid()
      modifies this
      ensures Valid()
      ensures accepted <==> |old(data)| + |value| <= limit
      ensures data == if accepted then old(data) + value else old(data)
      ensures written == if accepted then |value| else 0
    {
      var room: int64 := limit - |data|;
      if |value| > room {
        return 0, false;
      }
      data := data + value;
      return |value|, true;
    }
  }

  /** The buffer after offering it every chunk in turn. */
  function AfterWrites(limit: int64, chunks: seq<bytes>): bytes {
    if chunks == [] then []
    else
      var last := |chunks| - 1;
      var before := AfterWrites(limit, chunks[..last]);
      if |before| + |chunks[last]| <= limit then before + chunks[last] else before
  }

  method WriteEach(limit: int64, chunks: seq<bytes>) returns (data: bytes)
    ensures data == AfterWrites(limit, chunks)
    ensures data == [] || |data| <= limit
  {
    var buffer := new LimitedBuffer(limit);
    for i := 0 to |chunks|
      invariant buffer.Valid() && buffer.limit == limit
      invariant buffer.data == AfterWrites(limit, chunks[..i])
    {
      assert chunks[..i + 1][..i] == chunks[..i];
      var _, _ := buffer.Write(chunks[i]);
    }
    assert chunks[..|chunks|] == chunks;
    return buffer.data;
  }

  /** However a document is cut into writes, the buffer ends up holding all of it exactly when it fits. */
  lemma {:induction false} WholeDocumentIff(limit: int64, chunks: seq<bytes>)
    requires limit >= 0
    ensures AfterWrites(limit, chunks) == Concat(chunks) <==> |Concat(chunks)| <= limit
    ensures |AfterWrites(limit, chunks)| <= |Concat(chunks)|
  {
    if chunks != [] {
      var last := |chunks| - 1;
      var before := chunks[..last];
      WholeDocumentIff(limit, before);
      assert chunks == before + [chunks[last]];
      ConcatAppend(before, chunks[last]);
      AfterWritesFits(limit, chunks);
    }
  }

  lemma {:induction false} AfterWritesFits(limit: int64, chunks: seq<bytes>)
    requires limit >= 0
    ensures |AfterWrites(limit, chunks)| <= limit
  {
    if chunks != [] {
      AfterWritesFits(limit, chunks[..|chunks| - 1]);
    }
  }

  /** json.Encoder.Encode hands the whole document and one newline to a single Write. */
  method EncodeJSONBounded(document: bytes, limit: int64) returns (encoded: Option<bytes>)
    ensures encoded == if |document| + 1 <= limit then Some(document + NEWLINE) else None
  {
    var buffer := new LimitedBuffer(limit);
    var _, accepted := buffer.Write(document + NEWLINE);
    if !accepted {
      return None;
    }
    assert [] + (document + NEWLINE) == document + NEWLINE;
    return Some(buffer.data);
  }

  function BoundedJSONLimit(limit: int64): int64 {
    if limit < MAX_INT64 then limit + 1 else limit
  }

  // ---- readBounded ----

  /** A response body delivered in any chunks, after which reading either ends or fails. */
  datatype Body = Body(chunks: seq<bytes>, fails: bool)

  datatype ReadError = ResponseTooLarge | ReadFailed

  /** io.ReadAll over io.LimitReader. */
  method ReadAllLimited(body: Body, readLimit: int64) returns (data: bytes, failed: bool)
    ensures var all := Concat(body.chunks);
            && data == (if |all| <= readLimit then all else if readLimit < 0 then [] else all[..readLimit])
            && (failed <==> body.fails && |all| < readLimit)
  {
    data := [];
    var i := 0;
    ghost var all := Concat(body.chunks);
    assert body.chunks[0..] == body.chunks;
    while i < |body.chunks| && |data| < readLimit
      invariant 0 <= i <= |body.chunks|
      invariant |data| <= |all| && data == all[..|data|]
      invariant data == [] || |data| <= readLimit
      invariant |data| < readLimit ==> data + Concat(body.chunks[i..]) == all
    {
      var chunk := body.chunks[i];
      var room := readLimit - |data|;
      var taken := if |chunk| <= room then chunk else chunk[..room];
      assert body.chunks[i..][1..] == body.chunks[i + 1..];
      Assoc(data, chunk, Concat(body.chunks[i + 1..]));
      data := data + taken;
      i := i + 1;
    }
    if |data| < readLimit {
      assert data + Concat(body.chunks[|body.chunks|..]) == data;
    }
    failed := body.fails && |data| < readLimit;
  }

  /** readBounded. Declared is the Content-Length, or -1 when unknown. Below the int64 maximum the caller gets the
      whole body exactly when neither its declared nor its actual length exceeds the limit and reading it does not
      fail; at the maximum a longer body would be cut off instead of rejected. At most one byte more than the limit
      is ever held. */
  method ReadBounded(body: Body, declared: int64, limit: int64) returns (r: Result<bytes, ReadError>, ghost held: nat)
    ensures var all := Concat(body.chunks);
            limit < MAX_INT64 ==>
              && (r.Ok? <==> declared <= limit && |all| <= limit && !body.fails)
              && (r.Ok? ==> r.value == all)
              && (r == Err(ReadFailed) <==> declared <= limit && |all| <= limit && body.fails)
    ensures var all := Concat(body.chunks);
            limit == MAX_INT64 ==>
              && (r.Ok? <==> !body.fails || |all| >= MAX_INT64)
              && (r.Ok? ==> r.value == if |all| <= MAX_INT64 then all else all[..MAX_INT64])
              && (r.Err? ==> r == Err(ReadFailed))
    ensures held == 0 || held <= limit + 1
  {
    if declared > limit {
      return Err(ResponseTooLarge), 0;
    }
    var readLimit := limit;
    if readLimit < MAX_INT64 {
      readLimit := readLimit + 1;
    }
    var data, failed := ReadAllLimited(body, readLimit);
    held := |data|;
    if failed {
      return Err(ReadFailed), held;
    }
    if |data| > limit {
      return Err(ResponseTooLarge), held;
    }
    return Ok(data), held;
  }

  // ---- Request limits ----

  datatype RequestLimits = RequestLimits(
    maxBatchSize: int, maxContextBytes: int64, maxContextDepth: int, maxContextKeys: int)

  datatype LimitError =
    | TooManyRequests
    | TooManyKeys(index: nat)
    | TooDeep(index: nat)
    | TooManyBytes(index: nat)
    | NotEncodable(index: nat)
    | TooManyBytesEncoded

  /** Compact JSON printing is foreign: any function from documents to bytes may stand for it. */
  type Printer = JSON -> bytes

  function ContextJSON(context: map<string, AttrValue>, validIP: IPCheck): Option<JSON> {
    PrintAttrMap(ToAttrMapWire(context), validIP)
  }

  /** Go slices hold at most MAX_INT64 bytes, so the second bound only matters at the largest limit. */
  predicate SizeWithin(size: nat, limit: int64) {
    size <= limit && size < MAX_INT64
  }

  /** The limits on one context; an empty context consumes nothing. */
  predicate ContextWithin(context: map<string, AttrValue>, limits: RequestLimits, printer: Printer, validIP: IPCheck) {
    context == map[] ||
    (&& |context| <= limits.maxContextKeys
     && (forall name :: name in context ==> Height(context[name]) <= limits.maxContextDepth)
     && ContextJSON(context, validIP).Some?
     && SizeWithin(|printer(ContextJSON(context, validIP).value)|, limits.maxContextBytes))
  }

  /** The running maximum over the values of a map, in any iteration order. */
  method ContextDepth(context: map<string, AttrValue>) returns (depth: nat)
    ensures forall name :: name in context ==> Height(context[name]) <= depth
    ensures context != map[] ==> exists name :: name in context && Height(context[name]) == depth
  {
    depth := 0;
    var pending := context.Keys;
    while pending != {}
      invariant pending <= context.Keys
      invariant forall name :: name in context && name !in pending ==> Height(context[name]) <= depth
      invariant depth == 0 || exists name :: name in context && Height(context[name]) == depth
      decreases pending
    {
      var name :| name in pending;
      var current := AttrDepth(context[name]);
      if current > depth {
        depth := current;
      }
      pending := pending - {name};
    }
    if context != map[] {
      var name :| name in context;
      assert 1 <= Height(context[name]) <= depth;
    }
  }

  /** validateLimits. It accepts exactly the batches within every limit, whatever order maps are ranged over in;
      otherwise it names the first request over a limit, and its last size check never fires. */
  method ValidateLimits(batch: Batch, limits: RequestLimits, printer: Printer, validIP: IPCheck)
    returns (problem: Option<LimitError>)
    ensures problem.None? <==>
            && |batch| <= limits.maxBatchSize
            && forall i :: 0 <= i < |batch| ==> ContextWithin(batch[i].context, limits, printer, validIP)
    ensures problem.Some? && |batch| <= limits.maxBatchSize ==>
              && !problem.value.TooManyRequests? && !problem.value.TooManyBytesEncoded?
              && problem.value.index < |batch|
              && !ContextWithin(batch[problem.value.index].context, limits, printer, validIP)
              && forall j :: 0 <= j < problem.value.index ==> ContextWithin(batch[j].context, limits, printer, validIP)
    ensures problem == Some(TooManyRequests) <==> |batch| > limits.maxBatchSize
    ensures match problem
            case Some(TooManyKeys(i)) => |batch[i].context| > limits.maxContextKeys
            case Some(TooDeep(i)) =>
              && |batch[i].context| <= limits.maxContextKeys
              && exists name :: name in batch[i].context && Height(batch[i].context[name]) > limits.maxContextDepth
            case Some(NotEncodable(i)) => ContextJSON(batch[i].context, validIP).None?
            case Some(TooManyBytes(i)) =>
              && (forall name :: name in batch[i].context ==> Height(batch[i].context[name]) <= limits.maxContextDepth)
              && ContextJSON(batch[i].context, validIP).Some?
              && !SizeWithin(|printer(ContextJSON(batch[i].context, validIP).value)|, limits.maxContextBytes)
            case _ => true
  {
    if |batch| > limits.maxBatchSize {
      return Some(TooManyRequests);
    }
    for i := 0 to |batch|
      invariant forall j :: 0 <= j < i ==> ContextWithin(batch[j].context, limits, printer, validIP)
    {
      var context := batch[i].context;
      if context == map[] {
        continue;
      }
      if |context| > limits.maxContextKeys {
        return Some(TooManyKeys(i));
      }
      var depth := ContextDepth(context);
      if depth > limits.maxContextDepth {
        return Some(TooDeep(i));
      }
      var wire := BuildAttrMapWire(context);
      var document := PrintAttrMap(wire, validIP);
      if document.None? {
        return Some(NotEncodable(i));
      }
      var encoded := EncodeJSONBounded(printer(document.value), BoundedJSONLimit(limits.maxContextBytes));
      if encoded.None? {
        return Some(TooManyBytes(i));
      }
      var encodedBytes := |encoded.value| - 1;
      if encodedBytes > limits.maxContextBytes {
        return Some(TooManyBytesEncoded);
      }
    }
    return None;
  }
}
