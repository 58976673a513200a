/** The set-up bundle of `risepir-http/src/wire.rs`: header, fixed-width parameters per segment, then the hints. */
module WireSetup {
  import opened Words
  import opened Wrappers
  import opened Varint
  import opened U32s
  import opened Wire

  /** One segment's parameters; `sigma` is a float's eight bytes and `seed` is sixteen. */
  datatype SegmentParams = SegmentParams(lweDim: u32, plaintextBits: u32, sigma: seq<u8>, seed: seq<u8>,
                                         nRows: u32, rowWidth: u32, k: u32, reshapeRows: u32, reshapeRowWidth: u32)

  datatype SetupBundle = SetupBundle(arity: nat, numBuckets: u32, bucketSize: u32, fingerprintBits: u32, valueBits: u32,
                                     plaintextBits: u32, block: u64, backendParams: seq<SegmentParams>, hints: seq<seq<u32>>)

  /** What the backend's constructor would panic on; `sigmaOk` says which floats are finite and positive. */
  predicate ValidParams(p: SegmentParams, sigmaOk: seq<u8> -> bool) {
    p.lweDim != 0 && 1 <= p.plaintextBits <= 31 && sigmaOk(p.sigma)
  }

  predicate SizedParams(p: SegmentParams) {
    |p.sigma| == 8 && |p.seed| == 16
  }

  function HintLength(p: SegmentParams): nat {
    p.lweDim * p.reshapeRowWidth
  }

  function HintLengths(ps: seq<SegmentParams>): (ls: seq<nat>)
    ensures |ls| == |ps|
  {
    seq(|ps|, j requires 0 <= j < |ps| => HintLength(ps[j]))
  }

  /** Everything about a bundle the decoder insists on. */
  predicate Consistent(b: SetupBundle, sigmaOk: seq<u8> -> bool) {
    && 2 <= b.arity <= 4 && |b.backendParams| == |b.hints| == b.arity
    && (forall p :: p in b.backendParams ==> SizedParams(p) && ValidParams(p, sigmaOk))
    && Lengths(b.hints) == HintLengths(b.backendParams)
  }

  // ----- One segment's parameters -----

  const PARAMS_SIZE: nat := 52

  function ParamsBytes(p: SegmentParams): (bytes: seq<u8>)
    ensures SizedParams(p) ==> |bytes| == PARAMS_SIZE
  {
    LeBytes(p.lweDim, 4) + LeBytes(p.plaintextBits, 4) + p.sigma + p.seed
    + LeBytes(p.nRows, 4) + LeBytes(p.rowWidth, 4) + LeBytes(p.k, 4) + LeBytes(p.reshapeRows, 4) + LeBytes(p.reshapeRowWidth, 4)
  }

  function ParamsAt(bytes: seq<u8>, pos: nat): (p: SegmentParams)
    requires pos + PARAMS_SIZE <= |bytes|
    ensures SizedParams(p)
  {
    SegmentParams(U32At(bytes, pos), U32At(bytes, pos + 4), bytes[pos + 8..pos + 16], bytes[pos + 16..pos + 32],
                  U32At(bytes, pos + 32), U32At(bytes, pos + 36), U32At(bytes, pos + 40), U32At(bytes, pos + 44), U32At(bytes, pos + 48))
  }

  /** A piece of what a message holds is a piece of the message. */
  lemma Within(bytes: seq<u8>, pos: nat, s: seq<u8>, o: nat, n: nat)
    requires Holds(bytes, pos, s) && o + n <= |s|
    ensures bytes[pos + o..pos + o + n] == s[o..o + n]
  {
    var from, piece := bytes[pos + o..pos + o + n], s[o..o + n];
    forall i | 0 <= i < n ensures from[i] == piece[i] {
      assert piece[i] == s[o + i] == bytes[pos..pos + |s|][o + i];
    }
  }

  lemma FieldAt(bytes: seq<u8>, pos: nat, s: seq<u8>, o: nat, v: u32)
    requires Holds(bytes, pos, s) && o + 4 <= |s| && s[o..o + 4] == LeBytes(v, 4)
    ensures U32At(bytes, pos + o) == v
  {
    hide LeBytes, FromLe;
    Within(bytes, pos, s, o, 4);
    WordRoundTrip(bytes, pos + o, v);
  }

  lemma SigmaAndSeed(p: SegmentParams)
    requires SizedParams(p)
    ensures ParamsBytes(p)[8..16] == p.sigma && ParamsBytes(p)[16..32] == p.seed
  {
    hide LeBytes;
    var head := LeBytes(p.lweDim, 4) + LeBytes(p.plaintextBits, 4);
    assert ParamsBytes(p)[..32] == head + p.sigma + p.seed;
    assert (head + p.sigma + p.seed)[8..16] == p.sigma && (head + p.sigma + p.seed)[16..32] == p.seed;
  }

  lemma ParamsRoundTrip(bytes: seq<u8>, pos: nat, p: SegmentParams)
    requires SizedParams(p) && Holds(bytes, pos, ParamsBytes(p))
    ensures pos + PARAMS_SIZE <= |bytes| && ParamsAt(bytes, pos) == p
  {
    hide LeBytes, FromLe, U32At;
    var s := ParamsBytes(p);
    Within(bytes, pos, s, 8, 8);
    Within(bytes, pos, s, 16, 16);
    SigmaAndSeed(p);
    FieldAt(bytes, pos, s, 0, p.lweDim);
    FieldAt(bytes, pos, s, 4, p.plaintextBits);
    FieldAt(bytes, pos, s, 32, p.nRows);
    FieldAt(bytes, pos, s, 36, p.rowWidth);
    FieldAt(bytes, pos, s, 40, p.k);
    FieldAt(bytes, pos, s, 44, p.reshapeRows);
    FieldAt(bytes, pos, s, 48, p.reshapeRowWidth);
  }

  function EncodeParams(ps: seq<SegmentParams>): seq<u8> {
    if ps == [] then [] else ParamsBytes(ps[0]) + EncodeParams(ps[1..])
  }

  function ReadParams(bytes: seq<u8>, pos: nat, arity: nat, j: nat, sigmaOk: seq<u8> -> bool): Result<Parsed<seq<SegmentParams>>, WireError>
    requires j <= arity
    decreases arity - j
  {
    if j == arity then Ok(Parsed([], pos))
    else if pos + PARAMS_SIZE > |bytes| then Err(Truncated)
    else if !ValidParams(ParamsAt(bytes, pos), sigmaOk) then Err(InvalidSimpleParams(j))
    else Cons(ParamsAt(bytes, pos), ReadParams(bytes, pos + PARAMS_SIZE, arity, j + 1, sigmaOk))
  }

  lemma {:induction false} AllParamsRoundTrip(bytes: seq<u8>, pos: nat, ps: seq<SegmentParams>, j: nat, sigmaOk: seq<u8> -> bool)
    requires j <= |ps| && forall p :: p in ps ==> SizedParams(p) && ValidParams(p, sigmaOk)
    requires Holds(bytes, pos, EncodeParams(ps[j..]))
    ensures ReadParams(bytes, pos, |ps|, j, sigmaOk) == Ok(Parsed(ps[j..], pos + |EncodeParams(ps[j..])|))
    ensures |EncodeParams(ps[j..])| == PARAMS_SIZE * (|ps| - j)
    decreases |ps| - j
  {
    hide ParamsBytes, ParamsAt, ValidParams, SizedParams, Holds;
    if j < |ps| {
      assert ps[j] in ps && ps[j..][0] == ps[j] && ps[j..][1..] == ps[j + 1..];
      HoldsSplit(bytes, pos, ParamsBytes(ps[j]), EncodeParams(ps[j + 1..]));
      ParamsRoundTrip(bytes, pos, ps[j]);
      AllParamsRoundTrip(bytes, pos + PARAMS_SIZE, ps, j + 1, sigmaOk);
      assert [ps[j]] + ps[j + 1..] == ps[j..];
    }
  }

  lemma {:induction false} ReadParamsExact(bytes: seq<u8>, pos: nat, arity: nat, j: nat, sigmaOk: seq<u8> -> bool)
    requires j <= arity && pos <= |bytes| && ReadParams(bytes, pos, arity, j, sigmaOk).Ok?
    ensures var r := ReadParams(bytes, pos, arity, j, sigmaOk).value;
      && |r.value| == arity - j && (forall p :: p in r.value ==> SizedParams(p) && ValidParams(p, sigmaOk))
      && r.pos == pos + PARAMS_SIZE * (arity - j) <= |bytes| && |EncodeParams(r.value)| == PARAMS_SIZE * (arity - j)
    decreases arity - j
  {
    hide ParamsBytes, ParamsAt, ValidParams, SizedParams;
    if j < arity {
      ReadParamsExact(bytes, pos + PARAMS_SIZE, arity, j + 1, sigmaOk);
      var rest := ReadParams(bytes, pos + PARAMS_SIZE, arity, j + 1, sigmaOk).value.value;
      assert ([ParamsAt(bytes, pos)] + rest)[1..] == rest;
    }
  }

  // ----- The bundle -----

  const HEADER_SIZE: nat := 33

  function Header(b: SetupBundle): (bytes: seq<u8>)
    requires b.arity < 256
    ensures |bytes| == HEADER_SIZE
  {
    SETUP_MAGIC + [b.arity] + LeBytes(b.numBuckets, 4) + LeBytes(b.bucketSize, 4) + LeBytes(b.fingerprintBits, 4)
    + LeBytes(b.valueBits, 4) + LeBytes(b.plaintextBits, 4) + LeBytes(b.block, 8)
  }

  function EncodeSetup(b: SetupBundle): seq<u8>
    requires b.arity < 256
  {
    Header(b) + (EncodeParams(b.backendParams) + EncodeVectors(b.hints))
  }

  function DecodeSetup(bytes: seq<u8>, sigmaOk: seq<u8> -> bool): Result<SetupBundle, WireError> {
    if |bytes| < 4 || bytes[..4] != SETUP_MAGIC then Err(NotThisMessage)
    else if |bytes| < 5 then Err(Truncated)
    else if !(2 <= bytes[4] <= 4) then Err(BadScheme(bytes[4]))
    else if |bytes| < HEADER_SIZE then Err(Truncated)
    else match ReadParams(bytes, HEADER_SIZE, bytes[4], 0, sigmaOk)
      case Err(e) => Err(e)
      case Ok(ps) => match ReadVectors(bytes, ps.pos, HintLengths(ps.value), 0)
        case Err(e) => Err(e)
        case Ok(hs) =>
          if hs.pos != |bytes| then Err(LeftoverBytes)
          else Ok(SetupBundle(bytes[4], U32At(bytes, 5), U32At(bytes, 9), U32At(bytes, 13), U32At(bytes, 17), U32At(bytes, 21),
                              U64At(bytes, 25), ps.value, hs.value))
  }

  method WriteParams(start: seq<u8>, p: SegmentParams) returns (out: seq<u8>)
    ensures out == start + ParamsBytes(p)
  {
    hide LeBytes;
    out := start + LeBytes(p.lweDim, 4);
    out := out + LeBytes(p.plaintextBits, 4);
    out := out + p.sigma;
    out := out + p.seed;
    out := out + LeBytes(p.nRows, 4);
    out := out + LeBytes(p.rowWidth, 4);
    out := out + LeBytes(p.k, 4);
    out := out + LeBytes(p.reshapeRows, 4);
    out := out + LeBytes(p.reshapeRowWidth, 4);
  }

  /** Writes exactly as many bytes as were reserved. */
  method EncodeSetupBundle(b: SetupBundle) returns (out: seq<u8>)
    requires b.arity < 256 && (forall p :: p in b.backendParams ==> SizedParams(p)) && forall h :: h in b.hints ==> |h| < TWO_64
    ensures out == EncodeSetup(b)
  {
    hide ParamsBytes, LeBytes, EncodeVectors;
    out := SETUP_MAGIC + [b.arity] + LeBytes(b.numBuckets, 4) + LeBytes(b.bucketSize, 4) + LeBytes(b.fingerprintBits, 4)
      + LeBytes(b.valueBits, 4) + LeBytes(b.plaintextBits, 4) + LeBytes(b.block, 8);
    var ps := b.backendParams;
    for j := 0 to |ps|
      invariant out + EncodeParams(ps[j..]) == Header(b) + EncodeParams(ps)
    {
      assert ps[j..][0] == ps[j] && ps[j..][1..] == ps[j + 1..];
      Assoc(out, ParamsBytes(ps[j]), EncodeParams(ps[j + 1..]));
      out := WriteParams(out, ps[j]);
    }
    assert out == Header(b) + EncodeParams(ps);
    Assoc(Header(b), EncodeParams(ps), EncodeVectors(b.hints));
    out := WriteVectors(out, b.hints);
  }

  lemma {:induction false} ParamsLength(ps: seq<SegmentParams>)
    requires forall p :: p in ps ==> SizedParams(p)
    ensures |EncodeParams(ps)| == PARAMS_SIZE * |ps|
  {
    hide ParamsBytes, SizedParams;
    if ps != [] {
      ParamsLength(ps[1..]);
    }
  }

  /** The length of the encoding, whether or not its hints fit its geometry. */
  method SetupEncodedLen(b: SetupBundle) returns (total: nat)
    requires b.arity < 256 && (forall p :: p in b.backendParams ==> SizedParams(p)) && forall h :: h in b.hints ==> |h| < TWO_64
    ensures total == |EncodeSetup(b)|
  {
    hide Uvarint, ParamsBytes;
    ParamsLength(b.backendParams);
    total := HEADER_SIZE + PARAMS_SIZE * |b.backendParams|;
    for j := 0 to |b.hints|
      invariant total + |EncodeVectors(b.hints[j..])| == |EncodeSetup(b)|
    {
      assert b.hints[j] in b.hints;
      assert b.hints[j..][0] == b.hints[j] && b.hints[j..][1..] == b.hints[j + 1..];
      var prefix := UvarintLenLoop(|b.hints[j]|);
      total := total + prefix + 4 * |b.hints[j]|;
    }
  }

  /** One segment's fields, one after the other. */
  method DecodeParams(bytes: seq<u8>, start: nat) returns (r: Result<Parsed<SegmentParams>, WireError>)
    ensures r == if start + PARAMS_SIZE > |bytes| then Err(Truncated) else Ok(Parsed(ParamsAt(bytes, start), start + PARAMS_SIZE))
  {
    hide U32At;
    var pos := start;
    if pos + 4 > |bytes| { return Err(Truncated); }
    var lweDim := U32At(bytes, pos);
    pos := pos + 4;
    if pos + 4 > |bytes| { return Err(Truncated); }
    var plaintextBits := U32At(bytes, pos);
    pos := pos + 4;
    if pos + 8 > |bytes| { return Err(Truncated); }
    var sigma := bytes[pos..pos + 8];
    pos := pos + 8;
    if pos + 16 > |bytes| { return Err(Truncated); }
    var seed := bytes[pos..pos + 16];
    pos := pos + 16;
    var rest: seq<u32> := [];
    for f := 0 to 5
      invariant pos == start + 32 + 4 * f && |rest| == f
      invariant pos <= |bytes|
      invariant forall i :: 0 <= i < f ==> rest[i] == U32At(bytes, start + 32 + 4 * i)
    {
      if pos + 4 > |bytes| { return Err(Truncated); }
      rest := rest + [U32At(bytes, pos)];
      pos := pos + 4;
    }
    assert rest[0] == U32At(bytes, start + 32) && rest[1] == U32At(bytes, start + 36) && rest[2] == U32At(bytes, start + 40)
      && rest[3] == U32At(bytes, start + 44) && rest[4] == U32At(bytes, start + 48);
    return Ok(Parsed(SegmentParams(lweDim, plaintextBits, sigma, seed, rest[0], rest[1], rest[2], rest[3], rest[4]), pos));
  }

  method DecodeSetupBundle(bytes: seq<u8>, sigmaOk: seq<u8> -> bool) returns (r: Result<SetupBundle, WireError>)
    ensures r == DecodeSetup(bytes, sigmaOk)
  {
    hide Cons, U32At, U64At, ParamsAt, ValidParams, ReadVectors;
    if |bytes| < 4 || bytes[0..4] != SETUP_MAGIC {
      return Err(NotThisMessage);
    }
    var pos: nat := 4;
    if pos >= |bytes| {
      return Err(Truncated);
    }
    var arity := bytes[pos];
    pos := pos + 1;
    if !(2 <= arity <= 4) {
      return Err(BadScheme(arity));
    }
    if |bytes| < HEADER_SIZE {
      return Err(Truncated);
    }
    var numBuckets, bucketSize, fingerprintBits := U32At(bytes, pos), U32At(bytes, pos + 4), U32At(bytes, pos + 8);
    var valueBits, plaintextBits, block := U32At(bytes, pos + 12), U32At(bytes, pos + 16), U64At(bytes, pos + 20);
    pos := HEADER_SIZE;
    var ps: seq<SegmentParams> := [];
    ghost var goal := ReadParams(bytes, HEADER_SIZE, arity, 0, sigmaOk);
    if goal.Ok? { assert [] + goal.value.value == goal.value.value; }
    for j := 0 to arity
      invariant goal == Continue(ps, ReadParams(bytes, pos, arity, j, sigmaOk))
    {
      var p := DecodeParams(bytes, pos);
      if p.Err? {
        return Err(p.error);
      }
      if !ValidParams(p.value.value, sigmaOk) {
        return Err(InvalidSimpleParams(j));
      }
      ContinueCons(ps, p.value.value, ReadParams(bytes, p.value.pos, arity, j + 1, sigmaOk));
      pos := p.value.pos;
      ps := ps + [p.value.value];
    }
    assert ps + [] == ps;
    var hs := DecodeVectors(bytes, pos, HintLengths(ps));
    if hs.Err? {
      return Err(hs.error);
    }
    if hs.value.pos != |bytes| {
      return Err(LeftoverBytes);
    }
    return Ok(SetupBundle(arity, numBuckets, bucketSize, fingerprintBits, valueBits, plaintextBits, block, ps, hs.value.value));
  }

  lemma HeaderRoundTrip(b: SetupBundle, tail: seq<u8>)
    requires b.arity < 256
    ensures var bytes := Header(b) + tail;
      && bytes[..4] == SETUP_MAGIC && bytes[4] == b.arity
      && U32At(bytes, 5) == b.numBuckets && U32At(bytes, 9) == b.bucketSize && U32At(bytes, 13) == b.fingerprintBits
      && U32At(bytes, 17) == b.valueBits && U32At(bytes, 21) == b.plaintextBits && U64At(bytes, 25) == b.block
  {
    hide LeBytes, FromLe, U32At, Pow2;
    var s := Header(b);
    var bytes := s + tail;
    assert bytes[0..33] == s;
    assert s[5..9] == LeBytes(b.numBuckets, 4) && s[9..13] == LeBytes(b.bucketSize, 4) && s[13..17] == LeBytes(b.fingerprintBits, 4);
    assert s[17..21] == LeBytes(b.valueBits, 4) && s[21..25] == LeBytes(b.plaintextBits, 4) && s[25..33] == LeBytes(b.block, 8);
    FieldAt(bytes, 0, s, 5, b.numBuckets);
    FieldAt(bytes, 0, s, 9, b.bucketSize);
    FieldAt(bytes, 0, s, 13, b.fingerprintBits);
    FieldAt(bytes, 0, s, 17, b.valueBits);
    FieldAt(bytes, 0, s, 21, b.plaintextBits);
    assert bytes[25..33] == s[25..33];
    Pow2Values();
    LeRoundTrip(b.block, 8);
  }

  /** Every consistent bundle comes back as it was. */
  lemma SetupRoundTrip(b: SetupBundle, sigmaOk: seq<u8> -> bool)
    requires Consistent(b, sigmaOk) && forall h :: h in b.hints ==> |h| < TWO_64
    ensures DecodeSetup(EncodeSetup(b), sigmaOk) == Ok(b)
  {
    hide EncodeParams, EncodeVectors, ReadParams, ReadVectors, Holds, U32At, U64At, ParamsAt, ValidParams, SizedParams, Header;
    var ps, vs := EncodeParams(b.backendParams), EncodeVectors(b.hints);
    var bytes := EncodeSetup(b);
    HeaderRoundTrip(b, ps + vs);
    HoldsTail(Header(b), ps + vs);
    HoldsSplit(bytes, HEADER_SIZE, ps, vs);
    assert b.backendParams[0..] == b.backendParams && b.hints[0..] == b.hints;
    AllParamsRoundTrip(bytes, HEADER_SIZE, b.backendParams, 0, sigmaOk);
    VectorsRoundTrip(bytes, HEADER_SIZE + |ps|, HintLengths(b.backendParams), b.hints, 0);
  }

  /** Whatever is accepted is consistent: hint lengths exact, nothing left over, and its own encoding no longer. */
  lemma AcceptedSetupIsExact(bytes: seq<u8>, sigmaOk: seq<u8> -> bool)
    requires DecodeSetup(bytes, sigmaOk).Ok?
    ensures var b := DecodeSetup(bytes, sigmaOk).value;
      && Consistent(b, sigmaOk) && |EncodeSetup(b)| <= |bytes| && DecodeSetup(EncodeSetup(b), sigmaOk) == Ok(b)
  {
    hide EncodeParams, EncodeVectors, ReadParams, ReadVectors, U32At, U64At, ParamsAt, ValidParams, SizedParams, LeBytes;
    var b := DecodeSetup(bytes, sigmaOk).value;
    ReadParamsExact(bytes, HEADER_SIZE, bytes[4], 0, sigmaOk);
    var ps := ReadParams(bytes, HEADER_SIZE, bytes[4], 0, sigmaOk).value;
    ReadVectorsExact(bytes, ps.pos, HintLengths(ps.value), 0);
    assert HintLengths(ps.value)[0..] == HintLengths(ps.value);
    SetupRoundTrip(b, sigmaOk);
  }

  /** Parameters the decoder accepts: sizes, ranges, and a hint of `lweDim * reshapeRowWidth` words for every segment. */
  lemma AcceptedHints(bytes: seq<u8>, sigmaOk: seq<u8> -> bool, j: nat)
    requires DecodeSetup(bytes, sigmaOk).Ok? && j < DecodeSetup(bytes, sigmaOk).value.arity
    ensures var b := DecodeSetup(bytes, sigmaOk).value;
      && 2 <= b.arity <= 4 && |b.backendParams| == |b.hints| == b.arity
      && |b.hints[j]| == b.backendParams[j].lweDim * b.backendParams[j].reshapeRowWidth
      && b.backendParams[j].lweDim > 0 && 1 <= b.backendParams[j].plaintextBits <= 31 && sigmaOk(b.backendParams[j].sigma)
      && |b.backendParams[j].sigma| == 8 && |b.backendParams[j].seed| == 16
  {
    hide DecodeSetup, EncodeSetup;
    AcceptedSetupIsExact(bytes, sigmaOk);
    var b := DecodeSetup(bytes, sigmaOk).value;
    assert b.backendParams[j] in b.backendParams;
    assert Lengths(b.hints)[j] == HintLengths(b.backendParams)[j];
  }

  /** Every bundle with two to four segments of such parameters and such hints decodes to itself. */
  lemma ExactHintsRoundTrip(b: SetupBundle, sigmaOk: seq<u8> -> bool)
    requires 2 <= b.arity <= 4 && |b.backendParams| == |b.hints| == b.arity
    requires forall p :: p in b.backendParams ==>
      |p.sigma| == 8 && |p.seed| == 16 && p.lweDim > 0 && 1 <= p.plaintextBits <= 31 && sigmaOk(p.sigma)
    requires forall j :: 0 <= j < b.arity ==> |b.hints[j]| == b.backendParams[j].lweDim * b.backendParams[j].reshapeRowWidth
    ensures DecodeSetup(EncodeSetup(b), sigmaOk) == Ok(b)
  {
    hide DecodeSetup, EncodeSetup;
    forall h | h in b.hints ensures |h| < TWO_64 {
      var j :| 0 <= j < |b.hints| && b.hints[j] == h;
      ProductFits(b.backendParams[j].lweDim, b.backendParams[j].reshapeRowWidth);
    }
    assert Lengths(b.hints) == HintLengths(b.backendParams);
    SetupRoundTrip(b, sigmaOk);
  }

  lemma ProductFits(a: u32, b: u32)
    ensures a * b < TWO_64
  {
    MulMonotone(a, TWO_32 - 1, b);
    MulMonotone(b, TWO_32 - 1, TWO_32 - 1);
  }
}
