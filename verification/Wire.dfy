/** The set-up, query and response bundles of `risepir-http/src/wire.rs`. A float is its eight bytes. */
module Wire {
  import opened Words
  import opened Wrappers
  import opened Varint
  import opened U32s

  const SETUP_MAGIC: seq<u8> := [0x52, 0x50, 0x53, 0x31]
  const QUERY_MAGIC: seq<u8> := [0x52, 0x50, 0x51, 0x31]
  const RESPONSE_MAGIC: seq<u8> := [0x52, 0x50, 0x52, 0x31]

  datatype WireError =
    | NotThisMessage
    | Truncated
    | BadScheme(scheme: u8)
    | SegmentCount(expectedSegments: nat, foundSegments: nat)
    | SegmentLengthMismatch(segment: nat, expectedLength: nat, foundLength: nat)
    | InvalidSimpleParams(segment: nat)
    | LeftoverBytes
    | InCodec(error: CodecError)

  // ----- Vectors, one per segment -----

  function EncodeVectors(vs: seq<seq<u32>>): seq<u8> {
    if vs == [] then [] else EncodeU32s(vs[0]) + EncodeVectors(vs[1..])
  }

  function Cons<T>(x: T, r: Result<Parsed<seq<T>>, WireError>): Result<Parsed<seq<T>>, WireError> {
    match r
    case Err(e) => Err(e)
    case Ok(p) => Ok(Parsed([x] + p.value, p.pos))
  }

  /** Segment `j` must hold exactly `lengths[j]` values. */
  function ReadVectors(bytes: seq<u8>, pos: nat, lengths: seq<nat>, j: nat): Result<Parsed<seq<seq<u32>>>, WireError>
    requires j <= |lengths|
    decreases |lengths| - j
  {
    if j == |lengths| then Ok(Parsed([], pos))
    else match ReadU32s(bytes, pos, lengths[j])
      case Err(e) => Err(InCodec(e))
      case Ok(v) =>
        if |v.value| != lengths[j] then Err(SegmentLengthMismatch(j, lengths[j], |v.value|))
        else Cons(v.value, ReadVectors(bytes, v.pos, lengths, j + 1))
  }

  method WriteVectors(start: seq<u8>, vs: seq<seq<u32>>) returns (out: seq<u8>)
    requires forall v :: v in vs ==> |v| < TWO_64
    ensures out == start + EncodeVectors(vs)
  {
    hide EncodeU32s;
    out := start;
    for j := 0 to |vs|
      invariant out + EncodeVectors(vs[j..]) == start + EncodeVectors(vs)
    {
      assert vs[j] in vs && vs[j..][0] == vs[j] && vs[j..][1..] == vs[j + 1..];
      Assoc(out, EncodeU32s(vs[j]), EncodeVectors(vs[j + 1..]));
      out := WriteU32s(out, vs[j]);
    }
  }

  function Continue<T>(xs: seq<T>, r: Result<Parsed<seq<T>>, WireError>): Result<Parsed<seq<T>>, WireError> {
    match r
    case Err(e) => Err(e)
    case Ok(p) => Ok(Parsed(xs + p.value, p.pos))
  }

  lemma ContinueCons<T>(xs: seq<T>, x: T, r: Result<Parsed<seq<T>>, WireError>)
    ensures Continue(xs, Cons(x, r)) == Continue(xs + [x], r)
    ensures Continue([], r) == r
  {
    if r.Ok? {
      Assoc(xs, [x], r.value.value);
      assert [] + r.value.value == r.value.value;
    }
  }

  method DecodeVectors(bytes: seq<u8>, start: nat, lengths: seq<nat>) returns (r: Result<Parsed<seq<seq<u32>>>, WireError>)
    ensures r == ReadVectors(bytes, start, lengths, 0)
  {
    hide ReadU32s;
    var vs: seq<seq<u32>>, pos: nat := [], start;
    ghost var goal := ReadVectors(bytes, start, lengths, 0);
    ContinueCons([], [], goal);
    for j := 0 to |lengths|
      invariant goal == Continue(vs, ReadVectors(bytes, pos, lengths, j))
    {
      var v := ReadU32sLoop(bytes, pos, lengths[j]);
      if v.Err? {
        return Err(InCodec(v.error));
      }
      if |v.value.value| != lengths[j] {
        return Err(SegmentLengthMismatch(j, lengths[j], |v.value.value|));
      }
      ContinueCons(vs, v.value.value, ReadVectors(bytes, v.value.pos, lengths, j + 1));
      pos := v.value.pos;
      vs := vs + [v.value.value];
    }
    assert vs + [] == vs;
    return Ok(Parsed(vs, pos));
  }

  function Lengths(vs: seq<seq<u32>>): (ls: seq<nat>)
    ensures |ls| == |vs|
  {
    seq(|vs|, j requires 0 <= j < |vs| => |vs[j]|)
  }

  lemma {:induction false} VectorsRoundTrip(bytes: seq<u8>, pos: nat, lengths: seq<nat>, vs: seq<seq<u32>>, j: nat)
    requires j <= |vs| && Lengths(vs) == lengths && forall v :: v in vs ==> |v| < TWO_64
    requires Holds(bytes, pos, EncodeVectors(vs[j..]))
    ensures ReadVectors(bytes, pos, lengths, j) == Ok(Parsed(vs[j..], pos + |EncodeVectors(vs[j..])|))
    decreases |vs| - j
  {
    hide EncodeU32s, EncodeVectors, ReadU32s, ReadVectors, Holds, Cons;
    VectorsFirst(bytes, pos, lengths, vs, j);
    if j < |vs| {
      var head := EncodeU32s(vs[j]);
      assert vs[j] in vs && |vs[j]| == lengths[j];
      HoldsSplit(bytes, pos, head, EncodeVectors(vs[j + 1..]));
      U32sRoundTrip(bytes, pos, vs[j], lengths[j]);
      VectorsRoundTrip(bytes, pos + |head|, lengths, vs, j + 1);
      ConsRest(vs, j, pos + |head| + |EncodeVectors(vs[j + 1..])|);
    }
  }

  /** What is written, and read back, of no vectors and of one vector more. */
  lemma VectorsFirst(bytes: seq<u8>, pos: nat, lengths: seq<nat>, vs: seq<seq<u32>>, j: nat)
    requires j <= |vs| == |lengths|
    ensures j == |vs| ==> vs[j..] == [] && EncodeVectors(vs[j..]) == [] && ReadVectors(bytes, pos, lengths, j) == Ok(Parsed([], pos))
    ensures j < |vs| ==> EncodeVectors(vs[j..]) == EncodeU32s(vs[j]) + EncodeVectors(vs[j + 1..])
    ensures j < |vs| && ReadU32s(bytes, pos, lengths[j]).Ok? && |ReadU32s(bytes, pos, lengths[j]).value.value| == lengths[j] ==>
      var v := ReadU32s(bytes, pos, lengths[j]).value;
      ReadVectors(bytes, pos, lengths, j) == Cons(v.value, ReadVectors(bytes, v.pos, lengths, j + 1))
  {
    hide EncodeU32s, ReadU32s;
    if j < |vs| {
      assert vs[j..][0] == vs[j] && vs[j..][1..] == vs[j + 1..];
    }
  }

  lemma ConsRest(vs: seq<seq<u32>>, j: nat, pos: nat)
    requires j < |vs|
    ensures Cons(vs[j], Ok(Parsed(vs[j + 1..], pos))) == Ok(Parsed(vs[j..], pos))
  {
    assert [vs[j]] + vs[j + 1..] == vs[j..];
  }

  /** Accepted vectors have exactly the lengths asked for, and took at least their own encoding. */
  lemma {:induction false} ReadVectorsExact(bytes: seq<u8>, pos: nat, lengths: seq<nat>, j: nat)
    requires j <= |lengths| && pos <= |bytes| && ReadVectors(bytes, pos, lengths, j).Ok?
    ensures var p := ReadVectors(bytes, pos, lengths, j).value;
      && Lengths(p.value) == lengths[j..] && (forall v :: v in p.value ==> |v| < TWO_64)
      && pos + |EncodeVectors(p.value)| <= p.pos <= |bytes|
    decreases |lengths| - j
  {
    hide EncodeU32s, ReadU32s;
    if j < |lengths| {
      ReadU32sBounds(bytes, pos, lengths[j]);
      var v := ReadU32s(bytes, pos, lengths[j]).value;
      ReadVectorsExact(bytes, v.pos, lengths, j + 1);
      var rest := ReadVectors(bytes, v.pos, lengths, j + 1).value.value;
      assert ([v.value] + rest)[1..] == rest;
    }
  }

  // ----- Fixed-size fields -----

  function U32At(bytes: seq<u8>, pos: nat): u32
    requires pos + 4 <= |bytes|
  {
    WordAt(bytes, pos)
  }

  function U64At(bytes: seq<u8>, pos: nat): u64
    requires pos + 8 <= |bytes|
  {
    EightBytes(bytes[pos..pos + 8]);
    FromLe(bytes[pos..pos + 8])
  }

  // ----- Query and response bundles -----

  function EncodeQueryBundle(queries: seq<seq<u32>>): seq<u8>
    requires |queries| < 256
  {
    QUERY_MAGIC + [|queries|] + EncodeVectors(queries)
  }

  function DecodeQueryBundle(bytes: seq<u8>, arity: nat, lengths: seq<nat>): Result<seq<seq<u32>>, WireError> {
    if |bytes| < 4 || bytes[..4] != QUERY_MAGIC then Err(NotThisMessage)
    else if |bytes| < 5 then Err(Truncated)
    else if bytes[4] != arity then Err(SegmentCount(arity, bytes[4]))
    else if |lengths| != arity then Err(SegmentCount(arity, |lengths|))
    else match ReadVectors(bytes, 5, lengths, 0)
      case Err(e) => Err(e)
      case Ok(p) => if p.pos != |bytes| then Err(LeftoverBytes) else Ok(p.value)
  }

  function EncodeResponseBundle(responses: seq<seq<u32>>, head: u64): seq<u8>
    requires |responses| < 256
  {
    RESPONSE_MAGIC + [|responses|] + LeBytes(head, 8) + EncodeVectors(responses)
  }

  datatype ResponseBundle = ResponseBundle(responses: seq<seq<u32>>, head: u64)

  function DecodeResponseBundle(bytes: seq<u8>, lengths: seq<nat>, arity: nat): Result<ResponseBundle, WireError> {
    if |bytes| < 4 || bytes[..4] != RESPONSE_MAGIC then Err(NotThisMessage)
    else if |bytes| < 5 then Err(Truncated)
    else if bytes[4] != arity then Err(SegmentCount(arity, bytes[4]))
    else if |lengths| != arity then Err(SegmentCount(arity, |lengths|))
    else if |bytes| < 13 then Err(Truncated)
    else match ReadVectors(bytes, 13, lengths, 0)
      case Err(e) => Err(e)
      case Ok(p) => if p.pos != |bytes| then Err(LeftoverBytes) else Ok(ResponseBundle(p.value, U64At(bytes, 5)))
  }

  method EncodeQueries(queries: seq<seq<u32>>) returns (out: seq<u8>)
    requires |queries| < 256 && forall q :: q in queries ==> |q| < TWO_64
    ensures out == EncodeQueryBundle(queries)
  {
    out := QUERY_MAGIC + [|queries|];
    out := WriteVectors(out, queries);
  }

  method DecodeQueries(bytes: seq<u8>, arity: nat, lengths: seq<nat>) returns (r: Result<seq<seq<u32>>, WireError>)
    ensures r == DecodeQueryBundle(bytes, arity, lengths)
  {
    if |bytes| < 4 || bytes[0..4] != QUERY_MAGIC {
      return Err(NotThisMessage);
    }
    var pos := 4;
    if pos >= |bytes| {
      return Err(Truncated);
    }
    if bytes[pos] != arity {
      return Err(SegmentCount(arity, bytes[pos]));
    }
    pos := pos + 1;
    if |lengths| != arity {
      return Err(SegmentCount(arity, |lengths|));
    }
    var vs := DecodeVectors(bytes, pos, lengths);
    if vs.Err? {
      return Err(vs.error);
    }
    if vs.value.pos != |bytes| {
      return Err(LeftoverBytes);
    }
    return Ok(vs.value.value);
  }

  method EncodeResponses(responses: seq<seq<u32>>, head: u64) returns (out: seq<u8>)
    requires |responses| < 256 && forall a :: a in responses ==> |a| < TWO_64
    ensures out == EncodeResponseBundle(responses, head)
  {
    out := RESPONSE_MAGIC + [|responses|];
    out := out + LeBytes(head, 8);
    out := WriteVectors(out, responses);
  }

  method DecodeResponses(bytes: seq<u8>, lengths: seq<nat>, arity: nat) returns (r: Result<ResponseBundle, WireError>)
    ensures r == DecodeResponseBundle(bytes, lengths, arity)
  {
    if |bytes| < 4 || bytes[0..4] != RESPONSE_MAGIC {
      return Err(NotThisMessage);
    }
    var pos := 4;
    if pos >= |bytes| {
      return Err(Truncated);
    }
    if bytes[pos] != arity {
      return Err(SegmentCount(arity, bytes[pos]));
    }
    pos := pos + 1;
    if |lengths| != arity {
      return Err(SegmentCount(arity, |lengths|));
    }
    if |bytes| < pos + 8 {
      return Err(Truncated);
    }
    var head := U64At(bytes, pos);
    pos := pos + 8;
    var vs := DecodeVectors(bytes, pos, lengths);
    if vs.Err? {
      return Err(vs.error);
    }
    if vs.value.pos != |bytes| {
      return Err(LeftoverBytes);
    }
    return Ok(ResponseBundle(vs.value.value, head));
  }

  /** The tail of a message is what it holds after the head. */
  lemma HoldsTail(head: seq<u8>, tail: seq<u8>)
    ensures Holds(head + tail, |head|, tail)
  {
    assert (head + tail)[|head|..|head| + |tail|] == tail;
  }

  lemma QueryRoundTrip(queries: seq<seq<u32>>)
    requires |queries| < 256 && forall q :: q in queries ==> |q| < TWO_64
    ensures DecodeQueryBundle(EncodeQueryBundle(queries), |queries|, Lengths(queries)) == Ok(queries)
  {
    hide EncodeVectors, ReadVectors, Holds;
    var head := QUERY_MAGIC + [|queries|];
    var bytes := EncodeQueryBundle(queries);
    assert bytes == head + EncodeVectors(queries);
    HoldsTail(head, EncodeVectors(queries));
    assert queries[0..] == queries;
    VectorsRoundTrip(bytes, 5, Lengths(queries), queries, 0);
    assert bytes[..4] == QUERY_MAGIC;
  }

  lemma ResponseRoundTrip(responses: seq<seq<u32>>, head: u64)
    requires |responses| < 256 && forall a :: a in responses ==> |a| < TWO_64
    ensures DecodeResponseBundle(EncodeResponseBundle(responses, head), Lengths(responses), |responses|)
      == Ok(ResponseBundle(responses, head))
  {
    hide EncodeVectors, ReadVectors, Holds, LeBytes, FromLe, Pow2;
    var start := RESPONSE_MAGIC + [|responses|] + LeBytes(head, 8);
    var bytes := EncodeResponseBundle(responses, head);
    assert bytes == start + EncodeVectors(responses);
    HoldsTail(start, EncodeVectors(responses));
    assert responses[0..] == responses;
    VectorsRoundTrip(bytes, 13, Lengths(responses), responses, 0);
    assert bytes[..4] == RESPONSE_MAGIC && bytes[5..13] == LeBytes(head, 8);
    Pow2Values();
    LeRoundTrip(head, 8);
  }

  /** An accepted query has exactly the deployment's lengths, and is at least as long as its own encoding. */
  lemma AcceptedQueryIsExact(bytes: seq<u8>, arity: nat, lengths: seq<nat>)
    requires DecodeQueryBundle(bytes, arity, lengths).Ok?
    ensures var qs := DecodeQueryBundle(bytes, arity, lengths).value;
      && |qs| == arity < 256 && Lengths(qs) == lengths
      && |EncodeQueryBundle(qs)| <= |bytes| && DecodeQueryBundle(EncodeQueryBundle(qs), arity, lengths) == Ok(qs)
  {
    hide EncodeVectors, ReadVectors;
    ReadVectorsExact(bytes, 5, lengths, 0);
    QueryRoundTrip(DecodeQueryBundle(bytes, arity, lengths).value);
  }

  lemma AcceptedResponseIsExact(bytes: seq<u8>, lengths: seq<nat>, arity: nat)
    requires DecodeResponseBundle(bytes, lengths, arity).Ok?
    ensures var r := DecodeResponseBundle(bytes, lengths, arity).value;
      && |r.responses| == arity < 256 && Lengths(r.responses) == lengths
      && |EncodeResponseBundle(r.responses, r.head)| <= |bytes|
      && DecodeResponseBundle(EncodeResponseBundle(r.responses, r.head), lengths, arity) == Ok(r)
  {
    hide EncodeVectors, ReadVectors, LeBytes;
    ReadVectorsExact(bytes, 13, lengths, 0);
    var r := DecodeResponseBundle(bytes, lengths, arity).value;
    ResponseRoundTrip(r.responses, r.head);
  }
}
