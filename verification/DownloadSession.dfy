/** One browser session's attempt at the set-up bytes, over every way it can be interrupted. */
module DownloadSession {
  import opened Words
  import opened Wrappers
  import opened RangeHeader
  import opened Download

  const MAX_SANE_CACHE_BYTES: nat := 0x4_0000_0000

  predicate IsSaneByteLength(n: nat) {
    0 < n <= MAX_SANE_CACHE_BYTES
  }

  /** The `x-risepir-mode` header of a response: whether unknown accounts are known to be empty. */
  datatype ModeHeader = NoMode | Mode(complete: bool) | Garbled

  datatype Reply = Silent | Conflict | Unavailable | Answer

  /**
   Everything a session does not decide, per attempt: the version the server is serving, whether and how it
   answers, the headers it sends, the pieces the body arrives in, whether it then stalls; and which cache
   writes succeed.
   */
  datatype Env = Env(
    current: nat -> Version,
    reply: nat -> Reply,
    mode: nat -> ModeHeader,
    declared: nat -> bool,
    pieces: nat -> seq<nat>,
    stalls: nat -> bool,
    putOk: nat -> bool)

  datatype LoadError = Refused | Stale | ServerError | BadMode | Truncated | Overlong | Timeout | Malformed | Corrupt

  /** What one attempt hands to the next. */
  datatype Progress = Progress(off: nat, total: nat, nextChunk: nat, haveDest: bool, etag: Version, mode: Option<bool>, puts: nat)

  datatype Outcome = Complete | Failed(error: LoadError) | Stalled

  datatype Loaded = Loaded(total: nat, mode: Option<bool>)

  function Sum(pieces: seq<nat>): nat {
    if pieces == [] then 0 else Sum(pieces[..|pieces| - 1]) + pieces[|pieces| - 1]
  }

  function Heard(header: ModeHeader, before: Option<bool>): Option<bool> {
    if header.Mode? then Some(header.complete) else before
  }

  /** The last mode named by the first `n` attempts' answers. */
  function LastMode(env: Env, n: nat): Option<bool> {
    if n == 0 then None
    else Heard(if env.reply(n - 1).Answer? then env.mode(n - 1) else NoMode, LastMode(env, n - 1))
  }

  /** The first attempt is answered with a declared length and delivers everything it was sent. */
  predicate Smooth(bundle: Bundles, env: Env) {
    && env.reply(0).Answer? && !env.mode(0).Garbled? && env.declared(0) && !env.stalls(0)
    && Sum(env.pieces(0)) >= |bundle(env.current(0))|
  }

  /** The first attempt delivers everything and stalls all the same; the next is answered with the same version. */
  predicate StallsAtEnd(bundle: Bundles, env: Env) {
    && env.reply(0).Answer? && !env.mode(0).Garbled? && env.declared(0) && env.stalls(0)
    && Sum(env.pieces(0)) >= |bundle(env.current(0))|
    && env.reply(1).Answer? && env.current(1) == env.current(0)
  }

  /** Every whole chunk the record claims can be read back. */
  predicate Replayable(chunks: Chunks, e: Epoch, m: Meta) {
    forall i: nat :: i < m.bytesWritten / ChunkSize() ==> (e, i) in chunks && |chunks[(e, i)]| == ChunkSize()
  }

  /** The first `n` chunks are there, each a whole one. */
  predicate Stored(chunks: Chunks, e: Epoch, n: nat) {
    forall i: nat :: i < n ==> (e, i) in chunks && |chunks[(e, i)]| == ChunkSize()
  }

  /** The first `n` cache writes succeed. */
  ghost predicate AllPut(putOk: nat -> bool, n: nat) {
    forall k :: 0 <= k < n ==> putOk(k)
  }

  /** Of the first `n` cache writes, only the last fails. */
  ghost predicate LastPutFails(putOk: nat -> bool, n: nat) {
    n > 0 && AllPut(putOk, n - 1) && !putOk(n - 1)
  }

  predicate WholeAndSane(total: nat) {
    total % ChunkSize() == 0 && IsSaneByteLength(total)
  }

  /** The writes that store the whole chunks of a bundle of this size, two for each, succeed. */
  ghost predicate ChunksPut(putOk: nat -> bool, total: nat) {
    forall i: nat :: (i + 1) * ChunkSize() <= total ==> ChunkPut(putOk, i)
  }

  predicate ChunkPut(putOk: nat -> bool, i: nat) {
    putOk(2 * i) && putOk(2 * i + 1)
  }

  /** Every whole chunk in hand has been dealt with. */
  predicate CaughtUp(p: Progress) {
    p.off < (p.nextChunk + 1) * ChunkSize()
  }

  /** The record says exactly how many chunks are stored. */
  predicate Recorded(metas: Metas, e: Epoch, p: Progress) {
    p.nextChunk > 0 ==>
      && e in metas && metas[e].etag == p.etag && metas[e].totalBytes == p.total
      && metas[e].bytesWritten == p.nextChunk * ChunkSize() && !metas[e].complete
  }

  /** As long as no write has failed, the cache is as far as the buffer. */
  ghost predicate Tidy(metas: Metas, e: Epoch, p: Progress, putOk: nat -> bool) {
    AllPut(putOk, p.puts) ==> CaughtUp(p) && Recorded(metas, e, p)
  }

  /** A complete record, and every chunk it takes, whole ones and the rest. */
  ghost predicate CacheReady(metas: Metas, chunks: Chunks, e: Epoch) {
    && e in metas && metas[e].complete && IsSaneByteLength(metas[e].totalBytes)
    && forall i: nat :: i * ChunkSize() < metas[e].totalBytes ==>
         (e, i) in chunks && |chunks[(e, i)]| == Min(ChunkSize(), metas[e].totalBytes - i * ChunkSize())
  }

  /** The cache holds the whole of version `v`, but is not marked complete. */
  predicate Stuck(metas: Metas, chunks: Chunks, e: Epoch, v: Version) {
    && e in metas && !metas[e].complete && IsSaneByteLength(metas[e].totalBytes)
    && metas[e].bytesWritten == metas[e].totalBytes && metas[e].etag == v
    && Replayable(chunks, e, metas[e])
  }

  /** What a session did: the version and number of bytes it held last, and the cache writes it made. */
  datatype Trace = Trace(v: Version, held: nat, writes: nat)

  /** Attempt `k` sent version `v`: all of it, unless its length was not declared. */
  ghost predicate Supplied(bundle: Bundles, env: Env, k: nat, v: Version, r: Loaded) {
    && k <= MAX_SETUP_RESUME_ATTEMPTS && env.reply(k).Answer? && env.current(k) == v && r.mode == LastMode(env, k + 1)
    && (r.total == |bundle(v)| || (!env.declared(k) && r.total == Sum(env.pieces(k)) < |bundle(v)|))
  }

  ghost predicate Sent(env: Env, v: Version) {
    exists k: nat :: k <= MAX_SETUP_RESUME_ATTEMPTS && env.reply(k).Answer? && env.current(k) == v
  }

  ghost predicate AllDeclared(env: Env) {
    forall k :: env.declared(k)
  }

  /** The server keeps serving the one version. */
  predicate Serves(env: Env, v: Version) {
    forall k: nat :: k <= MAX_SETUP_RESUME_ATTEMPTS ==> env.current(k) == v
  }

  /** Nothing held: nothing to record. */
  lemma TidyAgain(metas: Metas, e: Epoch, p: Progress, putOk: nat -> bool)
    requires p.off == 0 && p.nextChunk == 0
    ensures Tidy(metas, e, p, putOk)
  {
  }

  predicate AtEnd(p: Progress) {
    p.haveDest && p.off == p.total
  }

  lemma StuckNames(metas: Metas, chunks: Chunks, e: Epoch, v: Version)
    ensures Stuck(metas, chunks, e, v) ==> e in metas && metas[e].etag == v
  {
  }

  lemma TidyMode(metas: Metas, e: Epoch, p: Progress, q: Progress, putOk: nat -> bool)
    requires Tidy(metas, e, p, putOk) && q == p.(mode := q.mode)
    ensures Tidy(metas, e, q, putOk)
  {
  }

  lemma ReadyRecord(metas: Metas, chunks: Chunks, e: Epoch)
    ensures CacheReady(metas, chunks, e) ==> e in metas && metas[e].complete && metas[e].totalBytes > 0
  {
  }

  lemma TidyStart(metas: Metas, e: Epoch, p: Progress, putOk: nat -> bool)
    requires CaughtUp(p) && Recorded(metas, e, p)
    ensures Tidy(metas, e, p, putOk)
  {
  }

  /** Writes that fill the cache with whole chunks and nothing else leave it stuck. */
  lemma BecomesStuck(metas: Metas, chunks: Chunks, e: Epoch, p: Progress)
    requires p.off == p.total && WholeAndSane(p.total)
    requires p.nextChunk * ChunkSize() <= p.off && CaughtUp(p) && Recorded(metas, e, p) && Stored(chunks, e, p.nextChunk)
    ensures p.nextChunk * ChunkSize() == p.total && Stuck(metas, chunks, e, p.etag)
  {
    hide ChunkSize, CaughtUp;
    NothingOver(p);
    assert p.nextChunk > 0;
  }

  lemma WholeCount(a: nat, n: nat, c: nat)
    requires c > 0 && a * c <= n * c < (a + 1) * c
    ensures a == n
  {
    if a < n {
      MulMonotone(a + 1, n, c);
    } else {
      MulMonotone(n, a, c);
      ModUnique(n * c, n, c, 0);
      ModUnique(n * c, a, c, n * c - a * c);
    }
  }

  /** With every whole chunk dealt with, a bundle of whole chunks has none left over. */
  lemma NothingOver(p: Progress)
    requires p.nextChunk * ChunkSize() <= p.total && p.off == p.total && CaughtUp(p)
    ensures p.total % ChunkSize() == 0 ==> p.nextChunk * ChunkSize() == p.total && p.nextChunk == p.total / ChunkSize()
  {
    hide ChunkSize;
    if p.total % ChunkSize() == 0 {
      WholeCount(p.nextChunk, p.total / ChunkSize(), ChunkSize());
    }
  }

  lemma WholeChunk(bundle: Bundles, v: Version, held: seq<u8>, i: nat, bytes: seq<u8>, mode: Option<bool>)
    requires |held| <= |bundle(v)| && held == bundle(v)[..|held|] && (i + 1) * ChunkSize() <= |held|
    requires bytes == held[i * ChunkSize()..i * ChunkSize() + ChunkSize()]
    ensures ChunkOk(bundle, v, i, bytes) && MetaOk(bundle, v, Meta(v, |bundle(v)|, (i + 1) * ChunkSize(), false, mode))
  {
    hide ChunkSize;
    var n := ChunkSize();
    ModUnique((i + 1) * n, i + 1, n, 0);
    assert i * n + n == (i + 1) * n;
  }

  /** The two shapes of request a session makes, and what each is answered. */
  lemma Answered(bundle: Bundles, current: Version, held: Version, off: nat)
    requires off < TWO_64
    ensures ServeSetup(bundle, current, None, None) == Full(current, bundle(current))
    ensures ServeSetup(bundle, current, Some(OpenRange(off)), Some(held)) ==
      if held != current then Full(current, bundle(current))
      else if off < |bundle(held)| then Partial(held, bundle(held)[off..])
      else RangeNotSatisfiable
  {
    ResumeAnswer(bundle, current, held, off);
  }

  lemma ChunkStarts(total: nat, i: nat)
    requires i < DivCeil(total, ChunkSize())
    ensures i * ChunkSize() < total
  {
    hide ChunkSize;
    var c := ChunkSize();
    var n := (total + c - 1) / c;
    assert total + c - 1 == n * c + (total + c - 1) % c;
    MulMonotone(i + 1, n, c);
    assert (i + 1) * c == i * c + c;
  }

  lemma ChunksCover(total: nat)
    ensures DivCeil(total, ChunkSize()) * ChunkSize() >= total
  {
    hide ChunkSize;
    var c := ChunkSize();
    var n := (total + c - 1) / c;
    assert total + c - 1 == n * c + (total + c - 1) % c;
  }

  lemma NowReady(metas: Metas, chunks: Chunks, e: Epoch, total: nat, n: nat)
    requires e in metas && metas[e].complete && metas[e].totalBytes == total && IsSaneByteLength(total)
    requires Stored(chunks, e, n) && n * ChunkSize() <= total < (n + 1) * ChunkSize()
    requires n * ChunkSize() < total ==> (e, n) in chunks && |chunks[(e, n)]| == total - n * ChunkSize()
    ensures CacheReady(metas, chunks, e)
  {
    hide ChunkSize;
    var c := ChunkSize();
    assert (n + 1) * c == n * c + c;
    forall i: nat | i * c < total ensures (e, i) in chunks && |chunks[(e, i)]| == Min(c, total - i * c) {
      if i < n {
        MulMonotone(i + 1, n, c);
        assert (i + 1) * c == i * c + c;
      } else if i > n {
        MulMonotone(n + 1, i, c);
        assert false;
      }
    }
  }

  class PirSession {
    const bundle: Bundles
    const db: Idb
    /** The wasm input buffer. */
    var input: array<u8>

    constructor (bundle: Bundles, db: Idb)
      ensures this.bundle == bundle && this.db == db && fresh(input)
    {
      this.bundle, this.db := bundle, db;
      input := new u8[0];
    }

    /** A buffer of the given size; its contents are whatever was there. */
    method ReserveInput(n: nat)
      modifies this
      ensures fresh(input) && input.Length == n
    {
      input := new u8[n];
    }

    method Set(off: nat, value: seq<u8>)
      requires off + |value| <= input.Length
      modifies input
      ensures input[..off] == old(input[..off]) && input[off..off + |value|] == value
    {
      ghost var before := input[..];
      for i := 0 to |value|
        invariant input[..off] == before[..off]
        invariant input[off..off + i] == value[..i]
      {
        input[off + i] := value[i];
        assert input[off..off + i + 1] == value[..i] + [value[i]];
      }
    }

    /** The buffer starts with the first `off` bytes of version `v`, and everything cached is of `v` too. */
    ghost predicate Holding(e: Epoch, v: Version, off: nat, nextChunk: nat)
      reads this, input, db
    {
      && input.Length == |bundle(v)| && off <= input.Length && input[..off] == bundle(v)[..off]
      && nextChunk * ChunkSize() <= off && Stored(db.chunks, e, nextChunk)
      && Holds(bundle, db.metas, db.chunks, e, v) && StoreOk(bundle, db.metas, db.chunks)
    }

    /** Stores one flushed chunk and its record. */
    method FlushChunk(e: Epoch, ghost v: Version, off: nat, nextChunk: nat, bytes: seq<u8>, meta: Meta, chunkOk: bool, metaOk: bool)
      requires Holding(e, v, off, nextChunk) && ChunkOk(bundle, v, nextChunk, bytes) && MetaOk(bundle, v, meta)
      modifies db
      ensures Holding(e, v, off, nextChunk)
      ensures chunkOk ==> (e, nextChunk) in db.chunks && db.chunks[(e, nextChunk)] == bytes
      ensures forall i: nat :: i != nextChunk ==>
        ((e, i) in db.chunks <==> (e, i) in old(db.chunks)) && ((e, i) in db.chunks ==> db.chunks[(e, i)] == old(db.chunks)[(e, i)])
      ensures metaOk ==> e in db.metas && db.metas[e] == meta
    {
      hide ChunkSize, StoreOk, Holds, ChunkOk, MetaOk;
      PutChunkKeeps(bundle, db.metas, db.chunks, e, v, nextChunk, bytes);
      db.PutChunk(e, nextChunk, bytes, chunkOk);
      PutMetaKeeps(bundle, db.metas, db.chunks, e, v, meta);
      db.PutMeta(e, meta, metaOk);
    }

    /** Stores the next whole chunk, and its record. */
    method FlushNext(e: Epoch, p: Progress, putOk: nat -> bool) returns (q: Progress, ok: bool)
      requires p.total == |bundle(p.etag)| && Holding(e, p.etag, p.off, p.nextChunk) && (p.nextChunk + 1) * ChunkSize() <= p.off
      modifies db
      ensures ok == putOk(p.puts)
      ensures q == if ok then p.(nextChunk := p.nextChunk + 1, puts := p.puts + 2) else p.(puts := p.puts + 1)
      ensures Holding(e, q.etag, q.off, q.nextChunk)
      ensures ok && putOk(p.puts + 1) ==> Recorded(db.metas, e, q)
    {
      hide ChunkSize, Holds, StoreOk, ChunkOk, MetaOk;
      var at := p.nextChunk * ChunkSize();
      var bytes := input[at..at + ChunkSize()];
      WholeChunk(bundle, p.etag, input[..p.off], p.nextChunk, bytes, p.mode);
      ok := putOk(p.puts);
      if !ok {
        return p.(puts := p.puts + 1), ok;
      }
      var meta := Meta(p.etag, p.total, (p.nextChunk + 1) * ChunkSize(), false, p.mode);
      FlushChunk(e, p.etag, p.off, p.nextChunk, bytes, meta, true, putOk(p.puts + 1));
      q := p.(nextChunk := p.nextChunk + 1, puts := p.puts + 2);
    }

    /** Flushes every whole chunk; the first write that fails ends it for now. */
    method Flush(e: Epoch, p: Progress, putOk: nat -> bool) returns (q: Progress)
      requires p.total == |bundle(p.etag)| && Holding(e, p.etag, p.off, p.nextChunk)
      modifies db
      ensures q == p.(nextChunk := q.nextChunk, puts := q.puts) && p.puts <= q.puts
      ensures Holding(e, q.etag, q.off, q.nextChunk)
      ensures AllPut(putOk, q.puts) ==> CaughtUp(q) && (Recorded(old(db.metas), e, p) ==> Recorded(db.metas, e, q))
      ensures ChunksPut(putOk, p.total) && p.puts == 2 * p.nextChunk ==> CaughtUp(q) && q.puts == 2 * q.nextChunk
    {
      hide ChunkSize, Holds, StoreOk, Recorded, Stored;
      q := p;
      while (q.nextChunk + 1) * ChunkSize() <= q.off
        invariant q == p.(nextChunk := q.nextChunk, puts := q.puts) && p.puts <= q.puts
        invariant Holding(e, q.etag, q.off, q.nextChunk)
        invariant AllPut(putOk, q.puts) && Recorded(old(db.metas), e, p) ==> Recorded(db.metas, e, q)
        invariant ChunksPut(putOk, p.total) && p.puts == 2 * p.nextChunk ==> q.puts == 2 * q.nextChunk
        decreases q.off - q.nextChunk * ChunkSize()
      {
        assert ChunksPut(putOk, p.total) ==> ChunkPut(putOk, q.nextChunk);
        var ok;
        q, ok := FlushNext(e, q, putOk);
        if !ok {
          assert !putOk(q.puts - 1);
          break;
        }
        assert AllPut(putOk, q.puts) ==> putOk(q.puts - 1);
      }
    }

    method Append(e: Epoch, ghost v: Version, off: nat, ghost nextChunk: nat, value: seq<u8>)
      requires Holding(e, v, off, nextChunk) && off + |value| <= input.Length
      requires value == bundle(v)[off..off + |value|]
      modifies input
      ensures Holding(e, v, off + |value|, nextChunk)
    {
      hide Holds, StoreOk;
      ghost var held := input[..off];
      Set(off, value);
      assert input[..off + |value|] == held + value;
      assert bundle(v)[..off + |value|] == bundle(v)[..off] + value;
    }

    lemma InBuffer(e: Epoch, p: Progress, q: Progress)
      requires Holding(e, q.etag, q.off, q.nextChunk) && p.off <= q.off
      ensures p.off <= q.off <= |bundle(q.etag)|
    {
    }

    /** Takes in the next bytes, and flushes what they complete. */
    method ReadPiece(e: Epoch, p: Progress, value: seq<u8>, putOk: nat -> bool) returns (q: Progress)
      requires p.total == |bundle(p.etag)| && Holding(e, p.etag, p.off, p.nextChunk)
      requires p.off + |value| <= p.total && value == bundle(p.etag)[p.off..p.off + |value|]
      modifies db, input
      ensures q == p.(off := p.off + |value|, nextChunk := q.nextChunk, puts := q.puts) && p.puts <= q.puts
      ensures Holding(e, q.etag, q.off, q.nextChunk)
      ensures Tidy(old(db.metas), e, p, putOk) ==> Tidy(db.metas, e, q, putOk)
      ensures ChunksPut(putOk, p.total) && p.puts == 2 * p.nextChunk ==> CaughtUp(q) && q.puts == 2 * q.nextChunk
    {
      hide CaughtUp, ChunkSize, Holds, StoreOk, ChunksPut, Stored;
      Append(e, p.etag, p.off, p.nextChunk, value);
      q := p.(off := p.off + |value|);
      q := Flush(e, q, putOk);
    }

    /** Reads the pieces of a body that continues the buffer. */
    method ReadBody(e: Epoch, p: Progress, body: seq<u8>, pieces: seq<nat>, putOk: nat -> bool)
      returns (q: Progress, overlong: bool)
      requires p.total == |bundle(p.etag)| && Holding(e, p.etag, p.off, p.nextChunk) && body == bundle(p.etag)[p.off..]
      modifies db, input
      ensures q == p.(off := q.off, nextChunk := q.nextChunk, puts := q.puts) && p.puts <= q.puts
      ensures Holding(e, q.etag, q.off, q.nextChunk) && !overlong
      ensures q.off == p.off + Min(|body|, Sum(pieces))
      ensures Tidy(old(db.metas), e, p, putOk) ==> Tidy(db.metas, e, q, putOk)
      ensures ChunksPut(putOk, p.total) && p.puts == 2 * p.nextChunk && CaughtUp(p) ==> CaughtUp(q) && q.puts == 2 * q.nextChunk
    {
      hide CaughtUp, ChunkSize, Holding, ChunksPut, Tidy;
      q, overlong := p, false;
      for k := 0 to |pieces|
        invariant q == p.(off := q.off, nextChunk := q.nextChunk, puts := q.puts) && p.puts <= q.puts
        invariant Holding(e, q.etag, q.off, q.nextChunk) && !overlong
        invariant q.off == p.off + Min(|body|, Sum(pieces[..k]))
        invariant Tidy(old(db.metas), e, p, putOk) ==> Tidy(db.metas, e, q, putOk)
        invariant ChunksPut(putOk, p.total) && p.puts == 2 * p.nextChunk && CaughtUp(p) ==> CaughtUp(q) && q.puts == 2 * q.nextChunk
      {
        assert pieces[..k + 1][..k] == pieces[..k];
        var got := q.off - p.off;
        InBuffer(e, p, q);
        var value := body[got..Min(|body|, got + pieces[k])];
        if q.off + |value| > q.total {
          overlong := true;
          return;
        }
        assert value == bundle(q.etag)[q.off..q.off + |value|];
        q := ReadPiece(e, q, value, putOk);
      }
      assert pieces[..|pieces|] == pieces;
    }

    /**
     The last chunk, of whatever length, and the record that everything is there. If everything is in whole
     chunks and only that record's write fails, the cache is left stuck.
     */
    method Finish(e: Epoch, p: Progress, putOk: nat -> bool) returns (puts: nat)
      requires Started(e, p) && p.haveDest && p.off == p.total > 0
      modifies db
      ensures StoreOk(bundle, db.metas, db.chunks) && p.puts < puts
      ensures Tidy(old(db.metas), e, p, putOk) && AllPut(putOk, puts) && IsSaneByteLength(p.total) ==>
        CacheReady(db.metas, db.chunks, e)
      ensures CaughtUp(p) && p.total % ChunkSize() == 0 ==> puts == p.puts + 1
      ensures Tidy(old(db.metas), e, p, putOk) && WholeAndSane(p.total) && LastPutFails(putOk, puts) ==>
        Stuck(db.metas, db.chunks, e, p.etag)
    {
      hide ChunkSize, CacheReady, Stuck, StoreOk, Holds, Recorded, IsSaneByteLength, Stored, MetaOk;
      var done := Meta(p.etag, p.total, p.total, true, p.mode);
      if CaughtUp(p) {
        NothingOver(p);
      }
      DoneIsOk(p);
      if p.nextChunk * ChunkSize() < p.total {
        puts := p.puts + 2;
        LastChunk(e, p, done, putOk);
      } else {
        puts := p.puts + 1;
        PutMetaKeeps(bundle, db.metas, db.chunks, e, p.etag, done);
        db.PutMeta(e, done, putOk(p.puts));
        if Tidy(old(db.metas), e, p, putOk) && AllPut(putOk, puts) && IsSaneByteLength(p.total) {
          assert putOk(p.puts);
          NowReady(db.metas, db.chunks, e, p.total, p.nextChunk);
        }
        if Tidy(old(db.metas), e, p, putOk) && WholeAndSane(p.total) && LastPutFails(putOk, puts) {
          BecomesStuck(db.metas, db.chunks, e, p);
        }
      }
    }

    lemma DoneIsOk(p: Progress)
      requires p.total == |bundle(p.etag)|
      ensures MetaOk(bundle, p.etag, Meta(p.etag, p.total, p.total, true, p.mode))
    {
    }

    method LastChunk(e: Epoch, p: Progress, done: Meta, putOk: nat -> bool)
      requires p.off == p.total == |bundle(p.etag)| && Holding(e, p.etag, p.off, p.nextChunk) && p.nextChunk * ChunkSize() < p.total
      requires done == Meta(p.etag, p.total, p.total, true, p.mode) && MetaOk(bundle, p.etag, done)
      modifies db
      ensures StoreOk(bundle, db.metas, db.chunks)
      ensures CaughtUp(p) && AllPut(putOk, p.puts + 2) && IsSaneByteLength(p.total) ==> CacheReady(db.metas, db.chunks, e)
    {
      hide ChunkSize, CacheReady, StoreOk, Holds, IsSaneByteLength, MetaOk;
      var at := p.nextChunk * ChunkSize();
      assert input[at..p.total] == input[..p.total][at..] == bundle(p.etag)[..p.total][at..];
      FlushChunk(e, p.etag, p.total, p.nextChunk, input[at..p.total], done, putOk(p.puts), putOk(p.puts + 1));
      if CaughtUp(p) && AllPut(putOk, p.puts + 2) && IsSaneByteLength(p.total) {
        assert putOk(p.puts) && putOk(p.puts + 1);
        NowReady(db.metas, db.chunks, e, p.total, p.nextChunk);
      }
    }

    /** Replays the cached prefix of an earlier session into the buffer. */
    method Replay(e: Epoch, m: Meta) returns (ok: bool)
      requires Holds(bundle, db.metas, db.chunks, e, m.etag) && StoreOk(bundle, db.metas, db.chunks) && MetaOk(bundle, m.etag, m) && !m.complete
      modifies this
      ensures fresh(input) && db.metas == old(db.metas) && db.chunks == old(db.chunks)
      ensures ok <==> Replayable(db.chunks, e, m)
      ensures ok ==> Holding(e, m.etag, m.bytesWritten / ChunkSize() * ChunkSize(), m.bytesWritten / ChunkSize())
    {
      hide ChunkSize, StoreOk, Holds, HoldsOne, ChunkOk;
      ReserveInput(m.totalBytes);
      var n := m.bytesWritten / ChunkSize();
      for i := 0 to n
        invariant fresh(input) && input.Length == m.totalBytes
        invariant forall k: nat :: k < i ==> (e, k) in db.chunks && |db.chunks[(e, k)]| == ChunkSize()
        invariant input[..i * ChunkSize()] == bundle(m.etag)[..i * ChunkSize()]
      {
        if (e, i) !in db.chunks || |db.chunks[(e, i)]| != ChunkSize() {
          return false;
        }
        var chunk := db.chunks[(e, i)];
        ghost var held := input[..i * ChunkSize()];
        NextWhole(e, m.etag, i, chunk);
        ClaimedFits(m, i);
        Set(i * ChunkSize(), chunk);
        assert input[..(i + 1) * ChunkSize()] == held + chunk;
      }
      return true;
    }

    /** A whole cached chunk is the next piece of its version. */
    lemma NextWhole(e: Epoch, v: Version, i: nat, chunk: seq<u8>)
      requires Holds(bundle, db.metas, db.chunks, e, v) && (e, i) in db.chunks && chunk == db.chunks[(e, i)] && |chunk| == ChunkSize()
      ensures (i + 1) * ChunkSize() == i * ChunkSize() + |chunk| <= |bundle(v)|
      ensures bundle(v)[..i * ChunkSize()] + chunk == bundle(v)[..(i + 1) * ChunkSize()]
    {
      hide ChunkSize;
      assert ChunkOk(bundle, v, i, chunk);
      assert (i + 1) * ChunkSize() == i * ChunkSize() + ChunkSize();
    }

    lemma ClaimedFits(m: Meta, i: nat)
      requires m.bytesWritten <= m.totalBytes && i < m.bytesWritten / ChunkSize()
      ensures (i + 1) * ChunkSize() <= m.totalBytes
    {
      hide ChunkSize;
      MulMonotone(i + 1, m.bytesWritten / ChunkSize(), ChunkSize());
    }

    /** A buffer for a response that starts at byte 0; whatever was cached is dropped first. */
    method StartOver(e: Epoch, ghost v: Version, total: nat)
      requires total == |bundle(v)|
      modifies this, db
      ensures fresh(input) && Holding(e, v, 0, 0)
    {
      hide ChunkSize;
      ReserveInput(total);
      db.ClearAll();
      EmptyHolds(bundle, e, v);
    }

    /** Where an earlier session left off, if its record and its chunks can be trusted; else a clean start. */
    method Resume(e: Epoch, resume: Option<Meta>) returns (p: Progress)
      requires StoreOk(bundle, db.metas, db.chunks)
      requires resume.Some? ==> e in db.metas && resume.value == db.metas[e] && !resume.value.complete
      modifies this, db
      ensures StoreOk(bundle, db.metas, db.chunks) && (fresh(input) || input == old(input)) && Keeps(e, p) && p.puts == 0
      ensures CaughtUp(p) && Recorded(db.metas, e, p) && p.mode == None
      ensures p.haveDest <==> resume.Some? && IsSaneByteLength(resume.value.totalBytes) && Replayable(old(db.chunks), e, resume.value)
      ensures p.haveDest && p.off == p.total <==> resume.Some? && Stuck(old(db.metas), old(db.chunks), e, resume.value.etag)
      ensures p.haveDest ==> p.etag == resume.value.etag && p.off == resume.value.bytesWritten && p.total == resume.value.totalBytes
      ensures p.haveDest ==> db.metas == old(db.metas) && db.chunks == old(db.chunks)
    {
      hide IsSaneByteLength, ChunkOk, ChunkSize, Holds, StoreOk, Replayable;
      p := Progress(0, 0, 0, false, 0, None, 0);
      if resume.None? {
        return;
      }
      var m := resume.value;
      HeldVersion(bundle, db.metas, db.chunks, e);
      if !(IsSaneByteLength(m.totalBytes) && 0 < m.bytesWritten <= m.totalBytes) {
        db.EvictEpoch(e);
        EmptyHolds(bundle, e, 0);
        return;
      }
      var ok := Replay(e, m);
      if !ok {
        db.EvictEpoch(e);
        EmptyHolds(bundle, e, 0);
        return;
      }
      p := Progress(m.bytesWritten / ChunkSize() * ChunkSize(), m.totalBytes, m.bytesWritten / ChunkSize(), true, m.etag, None, 0);
    }

    /** Between attempts: nothing yet, or a buffer and a cache that hold the start of one version. */
    ghost predicate Keeps(e: Epoch, p: Progress)
      reads this, input, db
    {
      Started(e, p) && (p.haveDest ==> p.off > 0)
    }

    ghost predicate Started(e: Epoch, p: Progress)
      reads this, input, db
    {
      if p.haveDest then
        p.nextChunk * ChunkSize() <= p.off <= p.total == |bundle(p.etag)| && Holding(e, p.etag, p.off, p.nextChunk)
      else p.off == 0 && p.nextChunk == 0
    }

    lemma Bounds(e: Epoch, p: Progress)
      requires Keeps(e, p)
      ensures p.haveDest <==> p.off > 0
      ensures p.haveDest ==> p.off <= p.total == |bundle(p.etag)|
    {
    }

    /** One attempt, whatever comes of it. */
    method OneAttempt(e: Epoch, env: Env, k: nat, p: Progress) returns (q: Progress, o: Outcome)
      requires NonEmpty(bundle) && StoreOk(bundle, db.metas, db.chunks)
      requires Keeps(e, p) && Tidy(db.metas, e, p, env.putOk) && p.mode == LastMode(env, k)
      modifies this, input, db
      ensures StoreOk(bundle, db.metas, db.chunks) && (fresh(input) || input == old(input))
      ensures o.Stalled? ==> Started(e, q) && Tidy(db.metas, e, q, env.putOk) && q.mode == LastMode(env, k + 1)
      ensures !env.reply(k).Answer? || o == Failed(Refused) ==>
        q == p && input == old(input) && input[..] == old(input[..]) && db.metas == old(db.metas) && db.chunks == old(db.chunks)
      ensures !o.Complete? ==> CutOff(e, Trace(q.etag, q.off, q.puts), env.putOk)
      ensures env.reply(k).Conflict? <==> o == Failed(Stale)
      ensures env.reply(k).Unavailable? <==> o == Failed(ServerError)
      ensures o == Failed(Refused) <==> env.reply(k).Answer? && p.haveDest && p.off == p.total && p.etag == env.current(k)
      ensures o == Failed(Refused) ==> q.off == |bundle(q.etag)| && input[..] == bundle(q.etag)
      ensures o.Complete? ==> q.off == q.total <= |bundle(q.etag)| && input[..] == bundle(q.etag)[..q.off]
      ensures o.Complete? ==> k > MAX_SETUP_RESUME_ATTEMPTS || Supplied(bundle, env, k, q.etag, Loaded(q.total, q.mode))
      ensures o.Complete? && env.declared(k) ==> CacheAfter(e, q.etag, q.total, q.puts, env.putOk)
      ensures k == 0 && Smooth(bundle, env) ==> o.Complete? || o == Failed(Refused)
      ensures k == 0 && Smooth(bundle, env) && o.Complete? ==> q.etag == env.current(0) && q.off == |bundle(q.etag)|
      ensures o.Complete? ==> env.reply(k).Answer?
      ensures k == 0 && StallsAtEnd(bundle, env) && o != Failed(Refused) ==>
        o.Stalled? && q.haveDest && q.off == q.total == |bundle(q.etag)| && q.etag == env.current(0)
      ensures k == 0 && o.Complete? && Smooth(bundle, env) && p.puts == 0 && !p.haveDest && ChunksPut(env.putOk, q.total) && WholeAndSane(q.total) ==>
        q.puts == 2 * (q.total / ChunkSize()) + 1
    {
      hide ChunkSize, Holds, StoreOk, OpenRange, ServeSetup, AllPut, CacheAfter, ChunksPut, Tidy, Sum, Holding, IsSaneByteLength, Started, WholeAndSane, Stuck;
      q, o := p, Stalled;
      Bounds(e, p);
      EndHere(e, p, env.putOk);
      assert 0 < |bundle(env.current(k))| < TWO_64 && 0 < |bundle(p.etag)| < TWO_64;
      if env.reply(k).Conflict? {
        return q, Failed(Stale);
      }
      if env.reply(k).Unavailable? {
        return q, Failed(ServerError);
      }
      if env.reply(k).Answer? {
        var resp := if p.off > 0 then ServeSetup(bundle, env.current(k), Some(OpenRange(p.off)), Some(p.etag))
                    else ServeSetup(bundle, env.current(k), None, None);
        Answered(bundle, env.current(k), p.etag, p.off);
        if resp.RangeNotSatisfiable? {
          return q, Failed(Refused);
        }
        q, o := TakeAnswer(e, resp, env.mode(k), env.declared(k), env.pieces(k), env.stalls(k), p, env.putOk);
        if o.Stalled? {
          EndHere(e, q, env.putOk);
        }
      }
    }

    /** Ending here, with every byte of a bundle of whole chunks in hand and stored, leaves the cache stuck. */
    ghost predicate CutOff(e: Epoch, t: Trace, putOk: nat -> bool)
      reads db
    {
      t.held == |bundle(t.v)| && WholeAndSane(t.held) && AllPut(putOk, t.writes) ==> Stuck(db.metas, db.chunks, e, t.v)
    }

    lemma EndHere(e: Epoch, p: Progress, putOk: nat -> bool)
      requires NonEmpty(bundle) && Started(e, p) && Tidy(db.metas, e, p, putOk)
      ensures CutOff(e, Trace(p.etag, p.off, p.puts), putOk)
      ensures p.haveDest && p.off == p.total ==> input[..] == bundle(p.etag)
    {
      hide ChunkSize, Holds, StoreOk, AllPut, Stuck, IsSaneByteLength;
      assert |bundle(p.etag)| > 0;
      if p.haveDest && p.off == p.total {
        assert input[..] == input[..p.total];
        if WholeAndSane(p.total) && AllPut(putOk, p.puts) {
          BecomesStuck(db.metas, db.chunks, e, p);
        }
      }
    }

    /**
     Takes in the body of one answer: the rest of the held bundle, or a bundle in full, for which whatever was
     held has been dropped. Without a declared length the body is taken as it comes, and nothing is cached.
     */
    method Receive(e: Epoch, resp: Response, declared: bool, pieces: seq<nat>, p: Progress, putOk: nat -> bool)
      returns (q: Progress, overlong: bool, uncached: bool)
      requires StoreOk(bundle, db.metas, db.chunks) && !resp.RangeNotSatisfiable? && |bundle(resp.etag)| > 0
      requires Keeps(e, p) && p.etag == resp.etag && p.haveDest == resp.Partial?
      requires resp.body == bundle(resp.etag)[p.off..]
      modifies this, input, db
      ensures StoreOk(bundle, db.metas, db.chunks) && (fresh(input) || input == old(input)) && !overlong
      ensures q.haveDest && q.etag == p.etag && q.mode == p.mode && p.puts <= q.puts
      ensures uncached <==> !p.haveDest && !declared
      ensures uncached ==> q.off == q.total == Min(|bundle(q.etag)|, Sum(pieces)) && input[..] == bundle(q.etag)[..q.off] && q.puts == p.puts
      ensures !uncached ==> Started(e, q)
      ensures !uncached ==> q.off == Min(q.total, p.off + Sum(pieces))
      ensures !uncached && Tidy(old(db.metas), e, p, putOk) ==> Tidy(db.metas, e, q, putOk)
      ensures !uncached && ChunksPut(putOk, q.total) && p.puts == 0 && !p.haveDest ==> CaughtUp(q) && q.puts == 2 * q.nextChunk
    {
      hide ChunkSize, Holds, StoreOk, AllPut, ChunksPut, Stored, Sum;
      if p.haveDest {
        q, overlong := ReadBody(e, p, resp.body, pieces, putOk);
        uncached := false;
      } else if declared {
        q := p.(haveDest := true, total := |resp.body|);
        StartOver(e, q.etag, q.total);
        q, overlong := ReadBody(e, q, resp.body, pieces, putOk);
        uncached := false;
      } else {
        var buf := resp.body[..Min(|resp.body|, Sum(pieces))];
        ReserveInput(|buf|);
        Set(0, buf);
        assert input[..] == input[0..0 + |buf|];
        q := p.(haveDest := true, off := |buf|, total := |buf|);
        overlong, uncached := false, true;
      }
    }

    /**
     One answer, up to the end of its body or the stall that cuts it off. A bundle in full drops whatever was
     held of another.
     */
    method TakeAnswer(e: Epoch, resp: Response, header: ModeHeader, declared: bool, pieces: seq<nat>, stalls: bool,
                      p: Progress, putOk: nat -> bool)
      returns (q: Progress, o: Outcome)
      requires StoreOk(bundle, db.metas, db.chunks) && !resp.RangeNotSatisfiable? && |bundle(resp.etag)| > 0
      requires Keeps(e, p) && Tidy(db.metas, e, p, putOk)
      requires if resp.Full? then resp.body == bundle(resp.etag)
               else p.haveDest && resp.etag == p.etag && p.off < p.total && resp.body == bundle(resp.etag)[p.off..]
      modifies this, input, db
      ensures StoreOk(bundle, db.metas, db.chunks) && (fresh(input) || input == old(input)) && p.puts <= q.puts
      ensures header.Garbled? <==> o == Failed(BadMode)
      ensures header.Garbled? ==> q.off == 0 || (q.etag == p.etag && q.off < |bundle(q.etag)|)
      ensures !header.Garbled? ==> q.etag == resp.etag && q.mode == Heard(header, p.mode) && q.off <= q.total <= |bundle(q.etag)|
      ensures o.Failed? && !header.Garbled? ==> o.error == Truncated && q.off < q.total
      ensures o.Stalled? ==> stalls && Started(e, q) && Tidy(db.metas, e, q, putOk)
      ensures o.Complete? ==> !stalls && q.off == q.total && input[..] == bundle(q.etag)[..q.off]
      ensures o.Complete? ==> q.total == |bundle(q.etag)| || (!declared && q.total == Sum(pieces) < |bundle(q.etag)|)
      ensures !header.Garbled? && declared && Sum(pieces) >= |bundle(resp.etag)| ==>
        if stalls then o.Stalled? && q.haveDest && q.off == q.total == |bundle(q.etag)| else o.Complete?
      ensures o.Complete? && declared ==> CacheAfter(e, q.etag, q.total, q.puts, putOk)
      ensures o.Complete? && declared && p.puts == 0 && !p.haveDest && ChunksPut(putOk, q.total) && WholeAndSane(q.total) ==>
        q.puts == 2 * (q.total / ChunkSize()) + 1
    {
      hide ChunkSize, Holds, StoreOk, AllPut, ChunksPut, Tidy, Sum, CacheReady, Stuck, LastPutFails, IsSaneByteLength, Stored, Holding;
      q := p;
      if p.off > 0 && resp.Full? {
        db.EvictEpoch(e);
        EmptyHolds(bundle, e, 0);
        q := q.(off := 0, total := 0, nextChunk := 0, haveDest := false);
      }
      if header.Garbled? {
        return q, Failed(BadMode);
      }
      q := q.(mode := Heard(header, q.mode), etag := resp.etag);
      if q.off == 0 {
        TidyAgain(db.metas, e, q, putOk);
      } else {
        TidyMode(db.metas, e, p, q, putOk);
      }
      q, o := TakeBody(e, resp, declared, pieces, stalls, q, putOk);
    }

    method TakeBody(e: Epoch, resp: Response, declared: bool, pieces: seq<nat>, stalls: bool, p: Progress, putOk: nat -> bool)
      returns (q: Progress, o: Outcome)
      requires StoreOk(bundle, db.metas, db.chunks) && !resp.RangeNotSatisfiable? && |bundle(resp.etag)| > 0
      requires Keeps(e, p) && Tidy(db.metas, e, p, putOk) && p.etag == resp.etag && p.haveDest == resp.Partial?
      requires p.off < |bundle(p.etag)| && resp.body == bundle(resp.etag)[p.off..]
      modifies this, input, db
      ensures StoreOk(bundle, db.metas, db.chunks) && (fresh(input) || input == old(input)) && p.puts <= q.puts
      ensures q.etag == p.etag && q.mode == p.mode && q.off <= q.total <= |bundle(q.etag)|
      ensures o.Failed? ==> o.error == Truncated && q.off < q.total
      ensures o.Stalled? ==> stalls && Started(e, q) && Tidy(db.metas, e, q, putOk)
      ensures o.Complete? ==> !stalls && q.off == q.total && input[..] == bundle(q.etag)[..q.off]
      ensures o.Complete? ==> q.total == |bundle(q.etag)| || (!declared && q.total == Sum(pieces) < |bundle(q.etag)|)
      ensures declared && Sum(pieces) >= |bundle(resp.etag)| ==> if stalls then o.Stalled? && q.haveDest && q.off == q.total == |bundle(q.etag)| else o.Complete?
      ensures o.Complete? && declared ==> CacheAfter(e, q.etag, q.total, q.puts, putOk)
      ensures o.Complete? && declared && p.puts == 0 && !p.haveDest && ChunksPut(putOk, q.total) && WholeAndSane(q.total) ==>
        q.puts == 2 * (q.total / ChunkSize()) + 1
    {
      hide ChunkSize, Holds, StoreOk, AllPut, ChunksPut, Tidy, Sum, CacheReady, Stuck, LastPutFails, IsSaneByteLength, Stored, Holding;
      var overlong, uncached;
      q, overlong, uncached := Receive(e, resp, declared, pieces, p, putOk);
      if overlong {
        return q, Failed(Overlong);
      }
      if stalls {
        if uncached {
          q := q.(off := 0, total := 0, nextChunk := 0, haveDest := false);
          TidyAgain(db.metas, e, q, putOk);
        }
        return q, Stalled;
      }
      if q.off != q.total {
        return q, Failed(Truncated);
      }
      if !uncached {
        WholeInput(e, q);
        if CaughtUp(q) {
          NothingOver(q);
        }
        var puts := Finish(e, q, putOk);
        q := q.(puts := puts);
      }
      return q, Complete;
    }

    lemma WholeInput(e: Epoch, p: Progress)
      requires Started(e, p) && p.haveDest && p.off == p.total
      ensures input[..] == bundle(p.etag)[..p.off] == bundle(p.etag)
    {
      hide ChunkSize, Holds, StoreOk;
      assert input[..] == input[..p.total];
    }

    /** What a success leaves behind, by which of its writes failed. */
    ghost predicate CacheAfter(e: Epoch, v: Version, total: nat, writes: nat, putOk: nat -> bool)
      reads db
    {
      && (AllPut(putOk, writes) && IsSaneByteLength(total) ==> CacheReady(db.metas, db.chunks, e))
      && (WholeAndSane(total) && LastPutFails(putOk, writes) ==> Stuck(db.metas, db.chunks, e, v))
    }

    /**
     The attempts of one session, from wherever it starts. `atEnd` says that it starts with every byte of a
     version in hand.
     */
    method Drive(e: Epoch, start: Progress, env: Env) returns (r: Result<Loaded, LoadError>, ghost t: Trace)
      requires NonEmpty(bundle) && StoreOk(bundle, db.metas, db.chunks)
      requires Keeps(e, start) && Tidy(db.metas, e, start, env.putOk) && start.mode == None && start.puts == 0
      modifies this, input, db
      ensures StoreOk(bundle, db.metas, db.chunks) && (fresh(input) || input == old(input))
      ensures r.Ok? ==> r.value.total == t.held <= |bundle(t.v)| && input[..] == bundle(t.v)[..t.held]
      ensures r.Ok? ==> exists k: nat :: Supplied(bundle, env, k, t.v, r.value)
      ensures r.Ok? && AllDeclared(env) ==> CacheAfter(e, t.v, t.held, t.writes, env.putOk)
      ensures r.Err? ==> CutOff(e, t, env.putOk)
      ensures !start.haveDest && Smooth(bundle, env) && r.Ok? && ChunksPut(env.putOk, t.held) && WholeAndSane(t.held) ==>
        t.writes == 2 * (t.held / ChunkSize()) + 1
      ensures Smooth(bundle, env) ==> (r.Ok? <==> !(AtEnd(start) && start.etag == env.current(0)))
      ensures Smooth(bundle, env) && r.Ok? ==> t.v == env.current(0) && t.held == |bundle(t.v)|
      ensures r == Err(Refused) ==> t.held == |bundle(t.v)| && input[..] == bundle(t.v)
      ensures StallsAtEnd(bundle, env) ==> r == Err(Refused)
      ensures AtEnd(start) && Serves(env, start.etag) ==> r.Err? && db.metas == old(db.metas) && db.chunks == old(db.chunks)
      ensures AtEnd(start) && start.etag == env.current(0) && env.reply(0).Answer? ==>
        r == Err(Refused) && db.metas == old(db.metas) && db.chunks == old(db.chunks)
    {
      hide ChunkSize, StoreOk, AllPut, CacheAfter, ChunksPut, Tidy, Supplied, LastMode, Started, Smooth, StallsAtEnd, CutOff, WholeAndSane;
      var p := start;
      ModeSoFar(env, 0);
      var attempt := 0;
      while true
        invariant attempt <= MAX_SETUP_RESUME_ATTEMPTS && StoreOk(bundle, db.metas, db.chunks) && (fresh(input) || input == old(input))
        invariant Keeps(e, p) && p.mode == LastMode(env, attempt) && Tidy(db.metas, e, p, env.putOk)
        invariant attempt == 0 ==> p == start && db.metas == old(db.metas) && db.chunks == old(db.chunks)
        invariant StallsAtEnd(bundle, env) ==> attempt <= 1 && (attempt == 1 ==> AtEnd(p) && p.etag == env.current(0) == env.current(1) && env.reply(1).Answer?)
        invariant attempt > 0 ==> !Smooth(bundle, env) && !(AtEnd(start) && start.etag == env.current(0) && env.reply(0).Answer?)
        invariant AtEnd(start) && Serves(env, start.etag) ==> p == start && db.metas == old(db.metas) && db.chunks == old(db.chunks)
        decreases MAX_SETUP_RESUME_ATTEMPTS - attempt
      {
        var o;
        FirstAnswers(env);
        p, o := OneAttempt(e, env, attempt, p);
        t := Trace(p.etag, p.off, p.puts);
        if o.Failed? {
          return Err(o.error), t;
        }
        if o.Complete? {
          assert AllDeclared(env) ==> env.declared(attempt);
          assert Supplied(bundle, env, attempt, p.etag, Loaded(p.total, p.mode));
          return Ok(Loaded(p.total, p.mode)), t;
        }
        if p.off == 0 || attempt >= MAX_SETUP_RESUME_ATTEMPTS {
          return Err(Timeout), t;
        }
        attempt := attempt + 1;
      }
    }

    lemma FirstAnswers(env: Env)
      ensures Smooth(bundle, env) ==> env.reply(0).Answer?
      ensures StallsAtEnd(bundle, env) ==> env.reply(0).Answer? && env.reply(1).Answer? && env.current(0) == env.current(1)
    {
    }

    /**
     Drives `/setup` to completion, resuming after stalls. Whatever happens, everything cached stays of one
     version; on success the buffer is exactly one version, one the server sent in this session, or the
     start of one whose length it did not declare.
     */
    method AttemptSetupDownload(e: Epoch, resume: Option<Meta>, env: Env) returns (r: Result<Loaded, LoadError>, ghost t: Trace)
      requires NonEmpty(bundle) && StoreOk(bundle, db.metas, db.chunks)
      requires resume.Some? ==> e in db.metas && resume.value == db.metas[e] && !resume.value.complete
      modifies this, input, db
      ensures StoreOk(bundle, db.metas, db.chunks) && (fresh(input) || input == old(input))
      // What it delivers.
      ensures r.Ok? ==> r.value.total == t.held <= |bundle(t.v)| && input[..] == bundle(t.v)[..t.held]
      ensures r.Ok? ==> exists k: nat :: Supplied(bundle, env, k, t.v, r.value)
      // What it leaves in the cache.
      ensures r.Ok? && AllDeclared(env) ==> CacheAfter(e, t.v, t.held, t.writes, env.putOk)
      ensures r.Err? ==> CutOff(e, t, env.putOk)
      ensures resume.None? && Smooth(bundle, env) && r.Ok? && ChunksPut(env.putOk, t.held) && WholeAndSane(t.held) ==>
        t.writes == 2 * (t.held / ChunkSize()) + 1
      // When it succeeds, and when it cannot.
      ensures Smooth(bundle, env) ==> (r.Ok? <==> !(resume.Some? && Stuck(old(db.metas), old(db.chunks), e, env.current(0))))
      ensures Smooth(bundle, env) && r.Ok? ==> t.v == env.current(0) && t.held == |bundle(t.v)|
      ensures r == Err(Refused) ==> t.held == |bundle(t.v)| && input[..] == bundle(t.v)
      ensures StallsAtEnd(bundle, env) ==> r == Err(Refused)
      ensures resume.Some? && Stuck(old(db.metas), old(db.chunks), e, resume.value.etag) && Serves(env, resume.value.etag) ==>
        r.Err? && db.metas == old(db.metas) && db.chunks == old(db.chunks)
      ensures resume.Some? && Stuck(old(db.metas), old(db.chunks), e, env.current(0)) && env.reply(0).Answer? ==>
        r == Err(Refused) && db.metas == old(db.metas) && db.chunks == old(db.chunks)
    {
      hide ChunkSize, Holds, StoreOk, Replayable, AllPut, CacheAfter, ChunksPut, Tidy, Holding, Recorded, IsSaneByteLength, Supplied, Started, Smooth, StallsAtEnd, Stuck, CutOff, WholeAndSane;
      var p := Resume(e, resume);
      StuckNames(old(db.metas), old(db.chunks), e, env.current(0));
      TidyStart(db.metas, e, p, env.putOk);
      r, t := Drive(e, p, env);
    }

    /** Replays a complete cached entry; anything amiss is simply not a hit. */
    method TryReadCache(e: Epoch, m: Meta, headMode: Option<bool>) returns (hit: bool)
      requires StoreOk(bundle, db.metas, db.chunks) && e in db.metas && m == db.metas[e]
      modifies this, db
      ensures StoreOk(bundle, db.metas, db.chunks) && (fresh(input) || input == old(input))
      ensures hit ==> input[..] == bundle(m.etag) && m.totalBytes == |bundle(m.etag)|
      ensures hit ==> headMode.None? || headMode == m.mode
      ensures CacheReady(old(db.metas), old(db.chunks), e) && (headMode.None? || headMode == m.mode) ==> hit
      ensures headMode.Some? && headMode != m.mode ==> db.metas == map[] && db.chunks == map[]
    {
      hide ChunkSize, StoreOk;
      HeldVersion(bundle, db.metas, db.chunks, e);
      if headMode.Some? && headMode != m.mode {
        db.EvictEpoch(e);
        EmptyHolds(bundle, e, 0);
        return false;
      }
      if !IsSaneByteLength(m.totalBytes) {
        db.EvictEpoch(e);
        EmptyHolds(bundle, e, 0);
        return false;
      }
      ReserveInput(m.totalBytes);
      var chunkCount := DivCeil(m.totalBytes, ChunkSize());
      var off: nat := 0;
      for i := 0 to chunkCount
        invariant fresh(input) && input.Length == m.totalBytes && off <= m.totalBytes
        invariant db.metas == old(db.metas) && db.chunks == old(db.chunks)
        invariant off == i * ChunkSize() || off == m.totalBytes
        invariant input[..off] == bundle(m.etag)[..off]
        invariant CacheReady(db.metas, db.chunks, e) ==> off == Min(i * ChunkSize(), m.totalBytes)
      {
        ChunkStarts(m.totalBytes, i);
        if (e, i) !in db.chunks || db.chunks[(e, i)] == [] {
          return false;
        }
        var chunk := db.chunks[(e, i)];
        assert ChunkOk(bundle, m.etag, i, chunk);
        if off + |chunk| > m.totalBytes {
          return false;
        }
        assert (i + 1) * ChunkSize() == i * ChunkSize() + ChunkSize();
        ghost var held := input[..off];
        Set(off, chunk);
        assert input[..off + |chunk|] == held + chunk;
        assert bundle(m.etag)[..off + |chunk|] == bundle(m.etag)[..off] + chunk;
        off := off + |chunk|;
      }
      ChunksCover(m.totalBytes);
      if off != m.totalBytes {
        return false;
      }
      assert input[..] == input[..off];
      return true;
    }

    /** The cached entry of the named lineage, if it can be used; a mode that is named nowhere ends the boot. */
    method BootFromCache(head: Head, lineage: Version -> Epoch, decodes: seq<u8> -> bool)
      returns (hit: bool, r: Result<Booted, LoadError>, ghost t: Trace)
      requires StoreOk(bundle, db.metas, db.chunks) && DecodesWhole(decodes, bundle) && head.epoch in db.metas
      modifies this, db
      ensures StoreOk(bundle, db.metas, db.chunks) && (fresh(input) || input == old(input))
      ensures hit && r.Ok? ==> input[..] == bundle(t.v) && r.value.fromCache && lineage(t.v) == head.epoch
      ensures hit && r.Ok? && head.mode.Some? ==> r.value.mode == head.mode.value
      ensures forall m :: CacheUsable(old(db.metas), old(db.chunks), head, lineage, m) ==> hit && r == Ok(Booted(true, m))
    {
      hide StoreOk, ChunkSize;
      var m := db.metas[head.epoch];
      r, t := Err(Malformed), Trace(m.etag, m.totalBytes, 0);
      hit := TryReadCache(head.epoch, m, head.mode);
      if hit {
        var mode := ResolveMode(if head.mode.Some? then head.mode else m.mode, head.modeByte);
        if mode.None? {
          return true, Err(BadMode), t;
        }
        assert bundle(m.etag) == bundle(m.etag)[..|bundle(m.etag)|];
        if !decodes(input[..]) {
          return true, Err(Malformed), t;
        }
        if lineage(m.etag) != head.epoch {
          db.EvictEpoch(head.epoch);
          EmptyHolds(bundle, head.epoch, 0);
          return true, Err(Corrupt), t;
        }
        return true, Ok(Booted(true, mode.value)), t;
      }
    }

    /** What is done with a download's outcome: the bytes must decode, and the mode must have been named. */
    method Start(head: Head, decodes: seq<u8> -> bool, ghost env: Env, dl: Result<Loaded, LoadError>, ghost t: Trace) returns (r: Result<Booted, LoadError>)
      requires DecodesWhole(decodes, bundle)
      requires dl.Ok? ==> dl.value.total == t.held <= |bundle(t.v)| && input[..] == bundle(t.v)[..t.held]
      requires dl.Ok? ==> exists k: nat :: Supplied(bundle, env, k, t.v, dl.value)
      ensures r.Ok? ==> !r.value.fromCache && input[..] == bundle(t.v) && t.held == |bundle(t.v)| && dl.Ok?
      ensures dl.Err? ==> r == Err(dl.error)
      ensures forall m :: r.Ok? && SaysMode(head, env, m) ==> r.value.mode == m
      ensures dl.Ok? && t.held == |bundle(t.v)| && ModeToCome(head, env) ==> r.Ok?
      ensures r.Ok? ==> Sent(env, t.v)
    {
      if dl.Err? {
        return Err(dl.error);
      }
      ghost var k: nat :| Supplied(bundle, env, k, t.v, dl.value);
      forall m | SaysMode(head, env, m) ensures dl.value.mode.Some? ==> dl.value.mode.value == m {
        LastModeSaid(env, k + 1, m);
      }
      if env.mode(0).Mode? && env.reply(0).Answer? {
        ModeNamed(env, k + 1);
      }
      var mode := ResolveMode(dl.value.mode, head.modeByte);
      if mode.None? {
        return Err(BadMode);
      }
      if !decodes(input[..]) {
        return Err(Malformed);
      }
      return Ok(Booted(false, mode.value));
    }

    /**
     One boot of the page: a complete cached entry if there is one, else a download. The bytes must decode; a
     bundle read from the cache must belong to the lineage the server just named; and the mode is one the server
     or the cache names, never a default.
     */
    method Load(head: Head, lineage: Version -> Epoch, decodes: seq<u8> -> bool, env: Env) returns (r: Result<Booted, LoadError>, ghost t: Trace)
      requires NonEmpty(bundle) && StoreOk(bundle, db.metas, db.chunks) && DecodesWhole(decodes, bundle)
      modifies this, input, db
      ensures StoreOk(bundle, db.metas, db.chunks)
      // What a boot has.
      ensures r.Ok? ==> input[..] == bundle(t.v)
      ensures r.Ok? ==> if r.value.fromCache then lineage(t.v) == head.epoch else Sent(env, t.v) && t.held == |bundle(t.v)|
      ensures forall m :: r.Ok? && SaysMode(head, env, m) ==> r.value.mode == m
      // What it uses and leaves in the cache.
      ensures forall m :: CacheUsable(old(db.metas), old(db.chunks), head, lineage, m) ==> r == Ok(Booted(true, m))
      ensures r.Ok? && !r.value.fromCache && AllDeclared(env) ==> CacheAfter(head.epoch, t.v, t.held, t.writes, env.putOk)
      // The cache that cannot be used, and how it comes about.
      ensures forall v :: Stuck(old(db.metas), old(db.chunks), head.epoch, v) && Serves(env, v) ==>
        r.Err? && db.metas == old(db.metas) && db.chunks == old(db.chunks)
      ensures Stuck(old(db.metas), old(db.chunks), head.epoch, env.current(0)) && env.reply(0).Answer? ==>
        r == Err(Refused) && db.metas == old(db.metas) && db.chunks == old(db.chunks)
      ensures head.epoch !in old(db.metas) && Smooth(bundle, env) && ModeToCome(head, env) ==> r.Ok? && !r.value.fromCache && t.v == env.current(0)
      ensures head.epoch !in old(db.metas) && Smooth(bundle, env) && r.Ok? && ChunksPut(env.putOk, t.held) && WholeAndSane(t.held) ==>
        t.writes == 2 * (t.held / ChunkSize()) + 1
    {
      hide StoreOk, ChunkSize, ChunksPut, DecodesWhole, CacheReady, CacheAfter;
      ReadyRecord(db.metas, db.chunks, head.epoch);
      if head.epoch in db.metas && db.metas[head.epoch].complete && db.metas[head.epoch].totalBytes > 0 {
        var hit;
        hit, r, t := BootFromCache(head, lineage, decodes);
        if hit {
          return;
        }
      }
      var resume: Option<Meta> := None;
      if head.epoch in db.metas && !db.metas[head.epoch].complete && db.metas[head.epoch].bytesWritten > 0 {
        resume := Some(db.metas[head.epoch]);
      }
      var dl;
      dl, t := AttemptSetupDownload(head.epoch, resume, env);
      r := Start(head, decodes, env, dl, t);
    }
  }

  /** What the server says before the set-up: `/head`'s lineage and mode, and `/mode`'s byte where it is asked. */
  datatype Head = Head(epoch: Epoch, mode: Option<bool>, modeByte: Option<bool>)

  datatype Booted = Booted(fromCache: bool, mode: bool)

  /** The mode a response named, or what `/mode` says. */
  function ResolveMode(mode: Option<bool>, modeByte: Option<bool>): Option<bool> {
    if mode.Some? then mode else modeByte
  }

  /** The mode will be known: from the first answer, or from `/mode`. */
  predicate ModeToCome(head: Head, env: Env) {
    (env.reply(0).Answer? && env.mode(0).Mode?) || head.modeByte.Some?
  }

  /** `/head` names mode `m`, and nothing the server says in this boot contradicts it. */
  ghost predicate SaysMode(head: Head, env: Env, m: bool) {
    && head.mode == Some(m) && (head.modeByte.Some? ==> head.modeByte.value == m)
    && forall k: nat :: env.mode(k).Mode? ==> env.mode(k).complete == m
  }

  /** A ready entry of the named lineage whose recorded mode is `m`, and `/head` does not say otherwise. */
  ghost predicate CacheUsable(metas: Metas, chunks: Chunks, head: Head, lineage: Version -> Epoch, m: bool) {
    && CacheReady(metas, chunks, head.epoch) && lineage(metas[head.epoch].etag) == head.epoch
    && metas[head.epoch].mode == Some(m) && (head.mode.Some? ==> head.mode.value == m)
  }

  /** The set-up decoder takes every bundle, and no part of one for the whole. */
  ghost predicate DecodesWhole(decodes: seq<u8> -> bool, bundle: Bundles) {
    forall v, n: nat | n <= |bundle(v)| :: decodes(bundle(v)[..n]) <==> n == |bundle(v)|
  }

  lemma {:induction false} LastModeSaid(env: Env, n: nat, m: bool)
    requires forall k: nat :: env.mode(k).Mode? ==> env.mode(k).complete == m
    ensures LastMode(env, n).Some? ==> LastMode(env, n).value == m
  {
    if n > 0 {
      LastModeSaid(env, n - 1, m);
    }
  }

  lemma ModeSoFar(env: Env, n: nat)
    ensures LastMode(env, n + 1) == Heard(if env.reply(n).Answer? then env.mode(n) else NoMode, LastMode(env, n))
    ensures LastMode(env, 0) == None
  {
  }

  /** Once named, a mode stays named. */
  lemma {:induction false} ModeNamed(env: Env, n: nat)
    requires n > 0 && env.reply(0).Answer? && env.mode(0).Mode?
    ensures LastMode(env, n).Some?
  {
    ModeSoFar(env, n - 1);
    if n > 1 {
      ModeNamed(env, n - 1);
    }
  }

  datatype Visit = Visit(head: Head, env: Env)

  /**
   Any number of boots over one cache, whatever interrupts each of them and however often the server
   regenerates or re-bootstraps in between: what a boot loads is never spliced from two versions.
   */
  method Boots(bundle: Bundles, lineage: Version -> Epoch, decodes: seq<u8> -> bool, visits: seq<Visit>)
    returns (loaded: seq<Result<seq<u8>, LoadError>>)
    requires NonEmpty(bundle) && DecodesWhole(decodes, bundle)
    ensures |loaded| == |visits|
    ensures forall i :: 0 <= i < |loaded| && loaded[i].Ok? ==> exists v :: loaded[i].value == bundle(v)
  {
    hide StoreOk, Stuck, DecodesWhole, ChunkSize;
    var db := new Idb();
    EmptyHolds(bundle, 0, 0);
    loaded := [];
    for i := 0 to |visits|
      invariant StoreOk(bundle, db.metas, db.chunks) && fresh(db)
      invariant |loaded| == i
      invariant forall k :: 0 <= k < i && loaded[k].Ok? ==> exists v :: loaded[k].value == bundle(v)
    {
      var session := new PirSession(bundle, db);
      var r;
      ghost var t;
      r, t := session.Load(visits[i].head, lineage, decodes, visits[i].env);
      if r.Ok? {
        assert session.input[..] == bundle(t.v);
        loaded := loaded + [Ok(session.input[..])];
      } else {
        loaded := loaded + [Err(r.error)];
      }
    }
  }

  /** A stuck cache stays as it is, and no boot succeeds, for as long as the server serves that one version. */
  method StuckBoots(bundle: Bundles, db: Idb, lineage: Version -> Epoch, decodes: seq<u8> -> bool, epoch: Epoch, v: Version, visits: seq<Visit>)
    returns (errors: seq<LoadError>)
    requires NonEmpty(bundle) && DecodesWhole(decodes, bundle) && StoreOk(bundle, db.metas, db.chunks)
    requires Stuck(db.metas, db.chunks, epoch, v)
    requires forall i :: 0 <= i < |visits| ==> visits[i].head.epoch == epoch && Serves(visits[i].env, v)
    modifies db
    ensures db.metas == old(db.metas) && db.chunks == old(db.chunks) && |errors| == |visits|
    ensures forall i :: 0 <= i < |errors| && visits[i].env.reply(0).Answer? ==> errors[i] == Refused
  {
    hide StoreOk, Stuck, DecodesWhole, ChunkSize;
    errors := [];
    for i := 0 to |visits|
      invariant StoreOk(bundle, db.metas, db.chunks) && db.metas == old(db.metas) && db.chunks == old(db.chunks) && |errors| == i
      invariant forall k :: 0 <= k < i && visits[k].env.reply(0).Answer? ==> errors[k] == Refused
    {
      var session := new PirSession(bundle, db);
      var r;
      ghost var t;
      assert Serves(visits[i].env, v);
      r, t := session.Load(visits[i].head, lineage, decodes, visits[i].env);
      errors := errors + [r.error];
    }
  }

  lemma OnlyTheLast(putOk: nat -> bool, total: nat)
    requires LastPutFails(putOk, 2 * (total / ChunkSize()) + 1)
    ensures ChunksPut(putOk, total)
  {
    hide ChunkSize;
    var c := ChunkSize();
    forall i: nat | (i + 1) * c <= total ensures ChunkPut(putOk, i) {
      if i >= total / c {
        MulMonotone(total / c + 1, i + 1, c);
        assert false;
      }
      assert putOk(2 * i) && putOk(2 * i + 1);
    }
  }

  /**
   How a cache gets stuck: an undisturbed first boot of a bundle of whole chunks succeeds, but the write that
   marks the entry complete fails. The next boot of the same bundle is refused.
   */
  method GetsStuck(bundle: Bundles, lineage: Version -> Epoch, decodes: seq<u8> -> bool, first: Visit, second: Visit)
    returns (db: Idb, r1: Result<Booted, LoadError>, r2: Result<Booted, LoadError>)
    requires NonEmpty(bundle) && DecodesWhole(decodes, bundle)
    requires var total := |bundle(first.env.current(0))|;
      && WholeAndSane(total) && Smooth(bundle, first.env) && AllDeclared(first.env) && ModeToCome(first.head, first.env)
      && LastPutFails(first.env.putOk, 2 * (total / ChunkSize()) + 1)
    requires second.head.epoch == first.head.epoch && second.env.current(0) == first.env.current(0) && second.env.reply(0).Answer?
    ensures r1.Ok? && !r1.value.fromCache && r2 == Err(Refused)
    ensures Stuck(db.metas, db.chunks, first.head.epoch, first.env.current(0))
  {
    hide StoreOk, Stuck, DecodesWhole, ChunkSize, AllPut, WholeAndSane, Smooth, ModeToCome, LastPutFails, ChunksPut, CacheReady, CacheUsable, Serves, SaysMode, Sent, IsSaneByteLength;
    db := new Idb();
    EmptyHolds(bundle, 0, 0);
    var session := new PirSession(bundle, db);
    ghost var t;
    OnlyTheLast(first.env.putOk, |bundle(first.env.current(0))|);
    r1, t := session.Load(first.head, lineage, decodes, first.env);
    var session2 := new PirSession(bundle, db);
    r2, t := session2.Load(second.head, lineage, decodes, second.env);
  }
}
