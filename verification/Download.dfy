/**
 The resumable set-up download: the range handler of `risepir-http/src/node.rs` and the browser client of
 `web/pir.js` with its chunked cache, run against each other.

 A bundle version is what an `ETag` names. Cache writes may fail one by one; a session that ends in the
 middle is one whose remaining writes failed and whose connection then stalled.
 */
module Download {
  import opened Words
  import opened Wrappers
  import opened RangeHeader

  /** Bytes per cached chunk. */
  function ChunkSize(): (n: nat)
    ensures n > 0
  {
    0x100_0000
  }

  const MAX_SETUP_RESUME_ATTEMPTS: nat := 3

  type Version = nat
  type Epoch = nat
  /** The bytes each version consists of. */
  type Bundles = Version -> seq<u8>

  ghost predicate NonEmpty(bundle: Bundles) {
    forall v :: 0 < |bundle(v)| < TWO_64
  }

  // ----- The handler -----

  datatype Response =
    | Full(etag: Version, body: seq<u8>)
    | Partial(etag: Version, body: seq<u8>)
    | RangeNotSatisfiable

  /** `Range` counts only when `If-Range` names exactly the bundle about to be sent. */
  function ServeSetup(bundle: Bundles, current: Version, range: Option<string>, ifRange: Option<Version>): Response {
    if range.Some? && ifRange == Some(current) then
      match ParseRange(range.value, |bundle(current)|)
      case Satisfiable(first, last) => Partial(current, bundle(current)[first..last + 1])
      case Unsatisfiable => RangeNotSatisfiable
      case Unsupported => Full(current, bundle(current))
    else Full(current, bundle(current))
  }

  /** What a resume at `off` of version `held` gets: the rest, a different bundle in full, or a refusal. */
  lemma ResumeAnswer(bundle: Bundles, current: Version, held: Version, off: nat)
    requires off < TWO_64
    ensures ServeSetup(bundle, current, Some(OpenRange(off)), Some(held)) ==
      if held != current then Full(current, bundle(current))
      else if off < |bundle(held)| then Partial(held, bundle(held)[off..])
      else RangeNotSatisfiable
  {
    ParseOpenRange(off, |bundle(current)|);
  }

  /** Without a range, or for a bundle other than the current one, the current bundle goes out whole. */
  lemma FullAnswer(bundle: Bundles, current: Version, range: Option<string>, ifRange: Option<Version>)
    ensures range.None? || ifRange != Some(current) ==> ServeSetup(bundle, current, range, ifRange) == Full(current, bundle(current))
  {
  }

  // ----- The browser's cache -----

  datatype Meta = Meta(etag: Version, totalBytes: nat, bytesWritten: nat, complete: bool, mode: Option<bool>)

  /** A chunk starts where its index says, and is a whole chunk unless it reaches the end. */
  ghost predicate ChunkOk(bundle: Bundles, v: Version, i: nat, bytes: seq<u8>) {
    && bytes != [] && i * ChunkSize() + |bytes| <= |bundle(v)|
    && bytes == bundle(v)[i * ChunkSize()..i * ChunkSize() + |bytes|]
    && (|bytes| == ChunkSize() || i * ChunkSize() + |bytes| == |bundle(v)|)
  }

  ghost predicate MetaOk(bundle: Bundles, v: Version, m: Meta) {
    && m.etag == v && m.totalBytes == |bundle(v)| && m.bytesWritten <= m.totalBytes
    && (!m.complete ==> m.bytesWritten > 0 && m.bytesWritten % ChunkSize() == 0)
  }

  type Metas = map<Epoch, Meta>
  type Chunks = map<(Epoch, nat), seq<u8>>

  /** Everything stored under `e` belongs to the one bundle version `v`. */
  ghost predicate Holds(bundle: Bundles, metas: Metas, chunks: Chunks, e: Epoch, v: Version) {
    && (e in metas ==> MetaOk(bundle, v, metas[e]))
    && (forall i: nat :: (e, i) in chunks ==> ChunkOk(bundle, v, i, chunks[(e, i)]))
  }

  ghost predicate HoldsOne(bundle: Bundles, metas: Metas, chunks: Chunks, e: Epoch) {
    exists v :: Holds(bundle, metas, chunks, e, v)
  }

  /** No epoch's records mix two versions. */
  ghost predicate StoreOk(bundle: Bundles, metas: Metas, chunks: Chunks) {
    forall e: Epoch :: HoldsOne(bundle, metas, chunks, e)
  }

  lemma EmptyHolds(bundle: Bundles, e: Epoch, v: Version)
    ensures Holds(bundle, map[], map[], e, v) && StoreOk(bundle, map[], map[])
  {
    forall e': Epoch ensures HoldsOne(bundle, map[], map[], e') {
      assert Holds(bundle, map[], map[], e', v);
    }
  }

  /** Writing a record and a chunk of the version already held under `e` keeps the store unmixed. */
  lemma PutChunkKeeps(bundle: Bundles, metas: Metas, chunks: Chunks, e: Epoch, v: Version, i: nat, bytes: seq<u8>)
    requires StoreOk(bundle, metas, chunks) && Holds(bundle, metas, chunks, e, v) && ChunkOk(bundle, v, i, bytes)
    ensures var chunks' := chunks[(e, i) := bytes]; StoreOk(bundle, metas, chunks') && Holds(bundle, metas, chunks', e, v)
  {
    hide ChunkOk, MetaOk;
    var chunks' := chunks[(e, i) := bytes];
    assert Holds(bundle, metas, chunks', e, v);
    forall e': Epoch ensures HoldsOne(bundle, metas, chunks', e') {
      if e' != e {
        assert HoldsOne(bundle, metas, chunks, e');
        var v' :| Holds(bundle, metas, chunks, e', v');
        assert Holds(bundle, metas, chunks', e', v');
      }
    }
  }

  lemma PutMetaKeeps(bundle: Bundles, metas: Metas, chunks: Chunks, e: Epoch, v: Version, m: Meta)
    requires StoreOk(bundle, metas, chunks) && Holds(bundle, metas, chunks, e, v) && MetaOk(bundle, v, m)
    ensures var metas' := metas[e := m]; StoreOk(bundle, metas', chunks) && Holds(bundle, metas', chunks, e, v)
  {
    hide ChunkOk, MetaOk;
    var metas' := metas[e := m];
    assert Holds(bundle, metas', chunks, e, v);
    forall e': Epoch ensures HoldsOne(bundle, metas', chunks, e') {
      if e' != e {
        assert HoldsOne(bundle, metas, chunks, e');
        var v' :| Holds(bundle, metas, chunks, e', v');
        assert Holds(bundle, metas', chunks, e', v');
      }
    }
  }

  /** A record names the version everything under its epoch belongs to. */
  lemma HeldVersion(bundle: Bundles, metas: Metas, chunks: Chunks, e: Epoch)
    requires StoreOk(bundle, metas, chunks) && e in metas
    ensures Holds(bundle, metas, chunks, e, metas[e].etag) && MetaOk(bundle, metas[e].etag, metas[e])
  {
    assert HoldsOne(bundle, metas, chunks, e);
    var v :| Holds(bundle, metas, chunks, e, v);
  }

  class Idb {
    var metas: Metas
    var chunks: Chunks

    constructor ()
      ensures metas == map[] && chunks == map[]
    {
      metas, chunks := map[], map[];
    }

    method PutChunk(e: Epoch, i: nat, bytes: seq<u8>, ok: bool)
      modifies this`chunks
      ensures chunks == if ok then old(chunks)[(e, i) := bytes] else old(chunks)
    {
      if ok {
        chunks := chunks[(e, i) := bytes];
      }
    }

    method PutMeta(e: Epoch, m: Meta, ok: bool)
      modifies this`metas
      ensures metas == if ok then old(metas)[e := m] else old(metas)
    {
      if ok {
        metas := metas[e := m];
      }
    }

    method ClearAll()
      modifies this
      ensures metas == map[] && chunks == map[]
    {
      metas, chunks := map[], map[];
    }

    /** Clears everything, but only when a record for `e` is there. */
    method EvictEpoch(e: Epoch)
      modifies this
      ensures if e in old(metas) then metas == map[] && chunks == map[] else metas == old(metas) && chunks == old(chunks)
    {
      if e in metas {
        ClearAll();
      }
    }
  }
}
