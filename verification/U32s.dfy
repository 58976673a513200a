/** The length-prefixed `Vec<u32>` framing of `risepir-proto/src/codec.rs`. */
module U32s {
  import opened Words
  import opened Wrappers
  import opened Varint

  function Packed(values: seq<u32>): (bytes: seq<u8>)
    ensures |bytes| == 4 * |values|
  {
    if values == [] then [] else LeBytes(values[0], 4) + Packed(values[1..])
  }

  /** The count, then the values little-endian. */
  function EncodeU32s(values: seq<u32>): seq<u8> {
    Uvarint(|values|) + Packed(values)
  }

  method WriteU32s(start: seq<u8>, values: seq<u32>) returns (out: seq<u8>)
    requires |values| < TWO_64
    ensures out == start + EncodeU32s(values)
  {
    hide LeBytes, Uvarint;
    out := WriteUvarint(start, |values|);
    for i := 0 to |values|
      invariant out + Packed(values[i..]) == start + EncodeU32s(values)
    {
      assert values[i..][0] == values[i] && values[i..][1..] == values[i + 1..];
      Assoc(out, LeBytes(values[i], 4), Packed(values[i + 1..]));
      out := out + LeBytes(values[i], 4);
    }
  }

  function WordAt(bytes: seq<u8>, pos: nat): u32
    requires pos + 4 <= |bytes|
  {
    FourBytes(bytes[pos..pos + 4]);
    FromLe(bytes[pos..pos + 4])
  }

  lemma FourBytes(chunk: seq<u8>)
    requires |chunk| == 4
    ensures FromLe(chunk) < TWO_32
  {
    FromLeRoundTrip(chunk);
    Pow2Values();
  }

  function WordsAt(bytes: seq<u8>, pos: nat, n: nat): (values: seq<u32>)
    requires pos + 4 * n <= |bytes|
    ensures |values| == n
    decreases n
  {
    if n == 0 then [] else [WordAt(bytes, pos)] + WordsAt(bytes, pos + 4, n - 1)
  }

  /** A count over the caller's ceiling, or over what the bytes left can hold, is rejected before it sizes anything. */
  function ReadU32s(bytes: seq<u8>, pos: nat, maxLen: nat): Result<Parsed<seq<u32>>, CodecError> {
    match ReadUvarint(bytes, pos, 0)
    case Err(e) => Err(e)
    case Ok(len) =>
      CountFits(bytes, pos);
      if len.value > maxLen || len.value > (|bytes| - len.pos) / 4 then Err(CountExceedsInput)
      else Ok(Parsed(WordsAt(bytes, len.pos, len.value), len.pos + 4 * len.value))
  }

  lemma CountFits(bytes: seq<u8>, pos: nat)
    requires ReadUvarint(bytes, pos, 0).Ok?
    ensures var p := ReadUvarint(bytes, pos, 0).value; p.value < TWO_64 && pos + |Uvarint(p.value)| <= p.pos <= |bytes|
  {
    RoomAtStart();
    ReadUvarintBounds(bytes, pos, 0);
  }

  method ReadU32sLoop(bytes: seq<u8>, start: nat, maxLen: nat) returns (r: Result<Parsed<seq<u32>>, CodecError>)
    ensures r == ReadU32s(bytes, start, maxLen)
  {
    hide ReadUvarint, WordAt;
    var len := ReadUvarintLoop(bytes, start);
    if len.Err? {
      return Err(len.error);
    }
    CountFits(bytes, start);
    if len.value.value > maxLen {
      return Err(CountExceedsInput);
    }
    if len.value.value > (|bytes| - len.value.pos) / 4 {
      return Err(CountExceedsInput);
    }
    var n := len.value.value;
    var out: seq<u32>, pos: nat := [], len.value.pos;
    ghost var goal := WordsAt(bytes, pos, n);
    assert [] + goal == goal;
    for i := 0 to n
      invariant pos == len.value.pos + 4 * i && out + WordsAt(bytes, pos, n - i) == goal
    {
      FourBytes(bytes[pos..pos + 4]);
      Assoc(out, [WordAt(bytes, pos)], WordsAt(bytes, pos + 4, n - i - 1));
      out := out + [WordAt(bytes, pos)];
      pos := pos + 4;
    }
    assert out + WordsAt(bytes, pos, 0) == out;
    return Ok(Parsed(out, pos));
  }

  /** One vector and nothing else. */
  function DecodeU32s(bytes: seq<u8>, maxLen: nat): Result<seq<u32>, CodecError> {
    match ReadU32s(bytes, 0, maxLen)
    case Err(e) => Err(e)
    case Ok(p) => if p.pos != |bytes| then Err(TrailingBytes) else Ok(p.value)
  }

  lemma {:induction false} PackedRoundTrip(bytes: seq<u8>, pos: nat, values: seq<u32>)
    requires Holds(bytes, pos, Packed(values))
    ensures pos + 4 * |values| <= |bytes| && WordsAt(bytes, pos, |values|) == values
    decreases |values|
  {
    hide LeBytes, FromLe;
    if values != [] {
      var head := LeBytes(values[0], 4);
      HoldsSplit(bytes, pos, head, Packed(values[1..]));
      PackedRoundTrip(bytes, pos + 4, values[1..]);
      WordRoundTrip(bytes, pos, values[0]);
      assert [values[0]] + values[1..] == values;
    }
  }

  lemma WordRoundTrip(bytes: seq<u8>, pos: nat, v: u32)
    requires Holds(bytes, pos, LeBytes(v, 4))
    ensures WordAt(bytes, pos) == v
  {
    hide LeBytes, FromLe, Pow2;
    Pow2Values();
    LeRoundTrip(v, 4);
  }

  /** Reading back what was written, anywhere in a message, under any ceiling that allows it. */
  lemma U32sRoundTrip(bytes: seq<u8>, pos: nat, values: seq<u32>, maxLen: nat)
    requires |values| < TWO_64 && |values| <= maxLen && Holds(bytes, pos, EncodeU32s(values))
    ensures ReadU32s(bytes, pos, maxLen) == Ok(Parsed(values, pos + |EncodeU32s(values)|))
  {
    hide Uvarint, ReadUvarint, Packed, WordsAt;
    var count := Uvarint(|values|);
    HoldsSplit(bytes, pos, count, Packed(values));
    RoomAtStart();
    UvarintRoundTrip(bytes, pos, |values|, 0);
    PackedRoundTrip(bytes, pos + |count|, values);
  }

  /** Whatever is accepted obeys the ceiling and is at least as long as its own encoding. */
  lemma ReadU32sBounds(bytes: seq<u8>, pos: nat, maxLen: nat)
    requires ReadU32s(bytes, pos, maxLen).Ok?
    ensures var p := ReadU32s(bytes, pos, maxLen).value;
      |p.value| <= maxLen && |p.value| < TWO_64 && pos + |EncodeU32s(p.value)| <= p.pos <= |bytes|
  {
    hide Uvarint, ReadUvarint, Packed, WordsAt;
    CountFits(bytes, pos);
  }

  method DecodeU32sLoop(bytes: seq<u8>, maxLen: nat) returns (r: Result<seq<u32>, CodecError>)
    ensures r == DecodeU32s(bytes, maxLen)
  {
    var p := ReadU32sLoop(bytes, 0, maxLen);
    if p.Err? {
      return Err(p.error);
    }
    if p.value.pos != |bytes| {
      return Err(TrailingBytes);
    }
    return Ok(p.value.value);
  }

  /** A vector decodes to itself exactly when the ceiling allows it and nothing follows. */
  lemma VectorRoundTrip(values: seq<u32>, extra: seq<u8>, maxLen: nat)
    requires |values| < TWO_64
    ensures DecodeU32s(EncodeU32s(values) + extra, maxLen) ==
      if |values| > maxLen then Err(CountExceedsInput) else if extra != [] then Err(TrailingBytes) else Ok(values)
  {
    hide Uvarint, ReadUvarint, Packed, WordsAt;
    var enc := EncodeU32s(values);
    var bytes := enc + extra;
    assert bytes[0..0 + |enc|] == enc;
    if |values| <= maxLen {
      U32sRoundTrip(bytes, 0, values, maxLen);
    } else {
      HoldsSplit(bytes, 0, Uvarint(|values|), Packed(values));
      RoomAtStart();
      UvarintRoundTrip(bytes, 0, |values|, 0);
    }
  }
}
