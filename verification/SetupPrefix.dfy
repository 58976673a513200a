/** A set-up bundle cut short is never taken for a whole one: what is read of a message depends on nothing beyond it. */
module SetupPrefix {
  import opened Words
  import opened Wrappers
  import opened Varint
  import opened U32s
  import opened Wire
  import opened WireSetup
  import Download
  import DownloadSession

  lemma {:induction false} UvarintOnPrefix(a: seq<u8>, b: seq<u8>, pos: nat, n: nat)
    requires a <= b && n <= 10 && ReadUvarint(a, pos, n).Ok?
    ensures ReadUvarint(b, pos, n) == ReadUvarint(a, pos, n)
    decreases 10 - n
  {
    if a[pos] >= 128 {
      UvarintOnPrefix(a, b, pos + 1, n + 1);
    }
  }

  lemma {:induction false} WordsOnPrefix(a: seq<u8>, b: seq<u8>, pos: nat, n: nat)
    requires a <= b && pos + 4 * n <= |a|
    ensures WordsAt(b, pos, n) == WordsAt(a, pos, n)
    decreases n
  {
    if n > 0 {
      assert a[pos..pos + 4] == b[pos..pos + 4];
      WordsOnPrefix(a, b, pos + 4, n - 1);
    }
  }

  lemma U32sOnPrefix(a: seq<u8>, b: seq<u8>, pos: nat, maxLen: nat)
    requires a <= b && ReadU32s(a, pos, maxLen).Ok?
    ensures ReadU32s(b, pos, maxLen) == ReadU32s(a, pos, maxLen)
  {
    hide ReadUvarint, WordsAt;
    UvarintOnPrefix(a, b, pos, 0);
    CountFits(a, pos);
    var len := ReadUvarint(a, pos, 0).value;
    WordsOnPrefix(a, b, len.pos, len.value);
  }

  lemma {:induction false} VectorsOnPrefix(a: seq<u8>, b: seq<u8>, pos: nat, lengths: seq<nat>, j: nat)
    requires a <= b && j <= |lengths| && ReadVectors(a, pos, lengths, j).Ok?
    ensures ReadVectors(b, pos, lengths, j) == ReadVectors(a, pos, lengths, j)
    decreases |lengths| - j
  {
    hide ReadU32s;
    if j < |lengths| {
      U32sOnPrefix(a, b, pos, lengths[j]);
      VectorsOnPrefix(a, b, ReadU32s(a, pos, lengths[j]).value.pos, lengths, j + 1);
    }
  }

  lemma ParamsSame(a: seq<u8>, b: seq<u8>, pos: nat)
    requires a <= b && pos + PARAMS_SIZE <= |a|
    ensures ParamsAt(b, pos) == ParamsAt(a, pos)
  {
    hide FromLe;
    assert a[pos..pos + 4] == b[pos..pos + 4] && a[pos + 4..pos + 8] == b[pos + 4..pos + 8];
    assert a[pos + 8..pos + 16] == b[pos + 8..pos + 16] && a[pos + 16..pos + 32] == b[pos + 16..pos + 32];
    assert a[pos + 32..pos + 36] == b[pos + 32..pos + 36] && a[pos + 36..pos + 40] == b[pos + 36..pos + 40];
    assert a[pos + 40..pos + 44] == b[pos + 40..pos + 44] && a[pos + 44..pos + 48] == b[pos + 44..pos + 48];
    assert a[pos + 48..pos + 52] == b[pos + 48..pos + 52];
  }

  lemma {:induction false} AllParamsOnPrefix(a: seq<u8>, b: seq<u8>, pos: nat, arity: nat, j: nat, sigmaOk: seq<u8> -> bool)
    requires a <= b && j <= arity && ReadParams(a, pos, arity, j, sigmaOk).Ok?
    ensures ReadParams(b, pos, arity, j, sigmaOk) == ReadParams(a, pos, arity, j, sigmaOk)
    decreases arity - j
  {
    hide ParamsAt, ValidParams;
    if j < arity {
      ParamsSame(a, b, pos);
      AllParamsOnPrefix(a, b, pos + PARAMS_SIZE, arity, j + 1, sigmaOk);
    }
  }

  /** If a message is accepted, anything longer that starts with it is refused, for its leftover bytes. */
  lemma LongerIsRefused(a: seq<u8>, b: seq<u8>, sigmaOk: seq<u8> -> bool)
    requires a <= b && |a| < |b| && DecodeSetup(a, sigmaOk).Ok?
    ensures DecodeSetup(b, sigmaOk) == Err(LeftoverBytes)
  {
    hide ReadParams, ReadVectors, U32At, U64At, HintLengths;
    assert a[..4] == b[..4] && a[4] == b[4];
    AllParamsOnPrefix(a, b, HEADER_SIZE, a[4], 0, sigmaOk);
    var ps := ReadParams(a, HEADER_SIZE, a[4], 0, sigmaOk).value;
    VectorsOnPrefix(a, b, ps.pos, HintLengths(ps.value), 0);
  }

  /** A consistent bundle decodes from all of its bytes and from no fewer. */
  lemma DecodesExactlyWhole(b: SetupBundle, sigmaOk: seq<u8> -> bool, n: nat)
    requires Consistent(b, sigmaOk) && (forall h :: h in b.hints ==> |h| < TWO_64) && n <= |EncodeSetup(b)|
    ensures DecodeSetup(EncodeSetup(b)[..n], sigmaOk).Ok? <==> n == |EncodeSetup(b)|
  {
    hide DecodeSetup, EncodeSetup, ValidParams, SizedParams, HintLengths;
    SetupRoundTrip(b, sigmaOk);
    var whole := EncodeSetup(b);
    assert whole[..|whole|] == whole;
    if n < |whole| && DecodeSetup(whole[..n], sigmaOk).Ok? {
      LongerIsRefused(whole[..n], whole, sigmaOk);
    }
  }

  ghost predicate AreSetups(bundle: Download.Bundles, setups: nat -> SetupBundle, sigmaOk: seq<u8> -> bool) {
    forall v :: IsSetup(bundle(v), setups(v), sigmaOk)
  }

  ghost predicate IsSetup(bytes: seq<u8>, b: SetupBundle, sigmaOk: seq<u8> -> bool) {
    Consistent(b, sigmaOk) && (forall h :: h in b.hints ==> |h| < TWO_64) && bytes == EncodeSetup(b)
  }

  /** What the download asks of the decoder, the decoder does. */
  lemma DecoderTakesWholeOnly(bundle: Download.Bundles, setups: nat -> SetupBundle, sigmaOk: seq<u8> -> bool, decodes: seq<u8> -> bool)
    requires AreSetups(bundle, setups, sigmaOk) && forall bytes :: decodes(bytes) == DecodeSetup(bytes, sigmaOk).Ok?
    ensures DownloadSession.DecodesWhole(decodes, bundle)
  {
    hide DecodeSetup, EncodeSetup, Consistent;
    forall v: nat, n: nat | n <= |bundle(v)| ensures decodes(bundle(v)[..n]) <==> n == |bundle(v)| {
      assert IsSetup(bundle(v), setups(v), sigmaOk);
      DecodesExactlyWhole(setups(v), sigmaOk, n);
    }
  }
}
