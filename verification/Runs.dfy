/**
 Client and server together, over every interleaving: block applies, re-bootstraps onto a new lineage,
 set-ups from a cached bundle, sync replies and answers that arrive late or never, garbage collections
 and queries. `history` remembers, for the statements only, every state any lineage was ever in.
 */
module Runs {
  import opened Words
  import opened Wrappers
  import opened Deltas
  import opened Coalesce
  import opened Value
  import opened Client
  import opened ClientTheorems

  /** A height in one lineage. */
  datatype Point = Point(epoch: nat, block: u64)

  datatype Asked = Asked(key: Address, secrets: seq<Secret>)

  datatype ClientSide<Hint> = ClientSide(session: nat, epoch: nat, snap: Snap<Hint>, asked: Option<Asked>)

  /** A reply belongs to the client session whose request it answers, and to the height asked from. */
  datatype SyncReply = SyncReply(session: nat, from: u64, delta: BlockDelta)

  datatype AnswerReply = AnswerReply(session: nat, queries: seq<seq<u32>>, resp: seq<seq<u32>>, atBlock: u64)

  datatype World<Hint> = World(
    server: Point,
    history: map<Point, Database>,
    client: ClientSide<Hint>,
    syncs: set<SyncReply>,
    answers: set<AnswerReply>)

  datatype Deployment<!Hint> = Deployment(up: Upstream<Hint>, g: Shape, codec: ValueCodec)

  ghost predicate Honest<Hint(!new)>(d: Deployment<Hint>) {
    WellFormed(d.up, d.g, d.codec) && Sound(d.up, d.g)
  }

  // ----- The steps -----

  datatype Event<Hint> =
    | Apply(block: u64, db: Database)
    | Rebootstrap(point: Point, db: Database)
    | Setup(block: u64, hints: seq<Hint>)
    | ServeSync(from: u64, delta: BlockDelta)
    | Deliver(reply: SyncReply)
    | Collect(upto: u64)
    | Ask(key: Address, seeds: seq<nat>)
    | ServeAnswer(queries: seq<seq<u32>>)

  /** The server applies a block above its head; heights may be skipped. */
  ghost predicate Applies<Hint>(d: Deployment<Hint>, w: World<Hint>, block: u64, db: Database, w': World<Hint>) {
    && block > w.server.block && GoodDatabase(d.g, db)
    && w' == Moved(w, Point(w.server.epoch, block), db)
  }

  /** The server starts over from an unrelated table, under an epoch never used before. */
  ghost predicate Rebootstraps<Hint>(d: Deployment<Hint>, w: World<Hint>, p: Point, db: Database, w': World<Hint>) {
    && (forall q :: q in w.history ==> q.epoch != p.epoch) && GoodDatabase(d.g, db)
    && w' == Moved(w, p, db)
  }

  function Moved<Hint>(w: World<Hint>, p: Point, db: Database): World<Hint> {
    w.(server := p, history := w.history[p := db])
  }

  /** A hint per segment, none of them with a query in flight. */
  function FreshSnap<Hint>(hints: seq<Hint>, block: u64): Snap<Hint> {
    Snap(seq(|hints|, j requires 0 <= j < |hints| => ClientState(hints[j], None)), block,
         Pending(seq(|hints|, _ => map[]), block))
  }

  ghost predicate PinnedTo<Hint>(d: Deployment<Hint>, hints: seq<Hint>, db: Database) {
    |hints| == |db| == d.g.arity && forall j :: 0 <= j < |hints| ==> d.up.pins(hints[j], db[j])
  }

  /** The client (re)starts from a bundle of the current lineage, cached at any height of it. */
  ghost predicate SetsUp<Hint>(d: Deployment<Hint>, w: World<Hint>, block: u64, hints: seq<Hint>, w': World<Hint>) {
    var p := Point(w.server.epoch, block);
    && p in w.history && PinnedTo(d, hints, w.history[p])
    && w' == w.(client := ClientSide(w.client.session + 1, p.epoch, FreshSnap(hints, block), None))
  }

  /** `/sync` behind the epoch gate: the delta between two heights of the served lineage. */
  ghost predicate ServesSync<Hint>(d: Deployment<Hint>, w: World<Hint>, from: u64, delta: BlockDelta, w': World<Hint>) {
    var a, b := Point(w.server.epoch, from), Point(w.server.epoch, delta.block);
    && w.client.epoch == w.server.epoch && from < delta.block
    && a in w.history && b in w.history && Bridges(delta, w.history[a], w.history[b])
    && w' == w.(syncs := w.syncs + {SyncReply(w.client.session, from, delta)})
  }

  /** The client ingests the reply to a request of this session, whatever its head is by now. */
  ghost predicate Delivers<Hint>(w: World<Hint>, r: SyncReply, w': World<Hint>) {
    && r in w.syncs && r.session == w.client.session
    && w' == w.(client := Fed(w.client, r.delta))
  }

  /**
   What `ingest` does not check: a span that lies ahead of the head starts from a database that agrees with the
   one mirrored. Asking for one sync at a time is enough.
   */
  ghost predicate StartsRight<Hint>(w: World<Hint>, e: Event<Hint>) {
    var c := w.client;
    e.Deliver? && e.reply.delta.block > c.snap.pending.head ==>
      && Point(c.epoch, e.reply.from) in w.history && Point(c.epoch, c.snap.pending.head) in w.history
      && SameCells(w.history[Point(c.epoch, e.reply.from)], w.history[Point(c.epoch, c.snap.pending.head)])
  }

  ghost predicate AllStartRight<Hint>(ws: seq<World<Hint>>, es: seq<Event<Hint>>)
    requires |ws| == |es| + 1
  {
    forall i :: 0 <= i < |es| ==> StartsRight(ws[i], es[i])
  }

  /** A span is delivered only while the head it was asked from still is the head. */
  ghost predicate OneSyncAtATime<Hint>(ws: seq<World<Hint>>, es: seq<Event<Hint>>)
    requires |ws| == |es| + 1
  {
    forall i :: 0 <= i < |es| && es[i].Deliver? ==> es[i].reply.from == ws[i].client.snap.pending.head
  }

  function Fed<Hint>(c: ClientSide<Hint>, d: BlockDelta): ClientSide<Hint> {
    c.(snap := c.snap.(pending := IngestInto(c.snap.pending, d).pending))
  }

  /** A garbage collection, with whatever target the caller names; a wrong or idle one changes nothing. */
  ghost predicate Collects<Hint>(d: Deployment<Hint>, w: World<Hint>, upto: u64, w': World<Hint>) {
    && w' == w.(client := w.client.(snap := w'.client.snap))
    && if upto == w.client.snap.pending.head && upto != w.client.snap.pinnedBlock
       then Collected(d.up, w.client.snap, w'.client.snap) else w'.client.snap == w.client.snap
  }

  /** A new query replaces the one in flight. */
  ghost predicate Asks<Hint(!new)>(d: Deployment<Hint>, w: World<Hint>, key: Address, seeds: seq<nat>, w': World<Hint>)
    requires WellFormed(d.up, d.g, d.codec)
  {
    && |seeds| == d.g.arity == |w.client.snap.states|
    && var secrets := SecretsFor(RowsFor(d.up, d.g, key), seeds);
       w' == w.(client := w.client.(snap := Queried(w.client.snap, secrets), asked := Some(Asked(key, secrets))))
  }

  /** `/answer` behind the epoch gate, at whatever head the server has by then. */
  ghost predicate ServesAnswer<Hint>(d: Deployment<Hint>, w: World<Hint>, queries: seq<seq<u32>>, w': World<Hint>)
    requires d.g.Valid()
  {
    && w.client.epoch == w.server.epoch && w.server in w.history && |queries| == |w.history[w.server]|
    && var resp := AnswerAll(d.g, w.history[w.server], queries);
       w' == w.(answers := w.answers + {AnswerReply(w.client.session, queries, resp, w.server.block)})
  }

  ghost predicate Step<Hint(!new)>(d: Deployment<Hint>, w: World<Hint>, e: Event<Hint>, w': World<Hint>)
    requires WellFormed(d.up, d.g, d.codec)
  {
    match e
    case Apply(block, db) => Applies(d, w, block, db, w')
    case Rebootstrap(p, db) => Rebootstraps(d, w, p, db, w')
    case Setup(block, hints) => SetsUp(d, w, block, hints, w')
    case ServeSync(from, delta) => ServesSync(d, w, from, delta, w')
    case Deliver(r) => Delivers(w, r, w')
    case Collect(upto) => Collects(d, w, upto, w')
    case Ask(key, seeds) => Asks(d, w, key, seeds, w')
    case ServeAnswer(queries) => ServesAnswer(d, w, queries, w')
  }

  /** One server state, and a client just set up from it. */
  ghost predicate Init<Hint>(d: Deployment<Hint>, w: World<Hint>, hints: seq<Hint>) {
    && w.history.Keys == {w.server} && GoodDatabase(d.g, w.history[w.server]) && PinnedTo(d, hints, w.history[w.server])
    && w.client == ClientSide(0, w.server.epoch, FreshSnap(hints, w.server.block), None)
    && w.syncs == {} && w.answers == {}
  }

  ghost predicate Run<Hint(!new)>(d: Deployment<Hint>, hints: seq<Hint>, ws: seq<World<Hint>>, es: seq<Event<Hint>>)
    requires WellFormed(d.up, d.g, d.codec)
  {
    |ws| == |es| + 1 && Init(d, ws[0], hints) && forall i :: 0 <= i < |es| ==> Step(d, ws[i], es[i], ws[i + 1])
  }

  // ----- The invariant -----

  ghost predicate HistoryOk<Hint>(d: Deployment<Hint>, w: World<Hint>) {
    && w.server in w.history
    && (forall p :: p in w.history ==> GoodDatabase(d.g, w.history[p]))
    && (forall p :: p in w.history && p.epoch == w.server.epoch ==> p.block <= w.server.block)
  }

  ghost predicate ClientOk<Hint>(d: Deployment<Hint>, history: map<Point, Database>, c: ClientSide<Hint>) {
    && Point(c.epoch, c.snap.pinnedBlock) in history && Point(c.epoch, c.snap.pending.head) in history
    && Mirrors(d.up, d.g, c.snap, history[Point(c.epoch, c.snap.pinnedBlock)], history[Point(c.epoch, c.snap.pending.head)])
  }

  ghost predicate AskedOk<Hint(!new)>(d: Deployment<Hint>, c: ClientSide<Hint>)
    requires WellFormed(d.up, d.g, d.codec)
  {
    c.asked.Some? ==> Asking(d.up, d.g, d.codec, c.snap, c.asked.value.key, c.asked.value.secrets)
  }

  /** What is on its way to the current session is true of that session's lineage. */
  ghost predicate SyncOk(history: map<Point, Database>, session: nat, epoch: nat, r: SyncReply) {
    && r.session <= session
    && (r.session == session ==>
          && r.from < r.delta.block
          && Point(epoch, r.from) in history && Point(epoch, r.delta.block) in history
          && Bridges(r.delta, history[Point(epoch, r.from)], history[Point(epoch, r.delta.block)]))
  }

  ghost predicate AnswerOk(g: Shape, history: map<Point, Database>, session: nat, epoch: nat, a: AnswerReply)
    requires g.Valid()
  {
    && a.session <= session
    && (a.session == session ==>
          && Point(epoch, a.atBlock) in history && |a.queries| == |history[Point(epoch, a.atBlock)]|
          && a.resp == AnswerAll(g, history[Point(epoch, a.atBlock)], a.queries))
  }

  ghost predicate Inv<Hint(!new)>(d: Deployment<Hint>, w: World<Hint>)
    requires WellFormed(d.up, d.g, d.codec)
  {
    && HistoryOk(d, w)
    && ClientOk(d, w.history, w.client) && AskedOk(d, w.client)
    && (forall r :: r in w.syncs ==> SyncOk(w.history, w.client.session, w.client.epoch, r))
    && (forall a :: a in w.answers ==> AnswerOk(d.g, w.history, w.client.session, w.client.epoch, a))
  }

  /** History only grows, so what was true of a height stays true of it. */
  lemma GrowKeepsInv<Hint(!new)>(d: Deployment<Hint>, w: World<Hint>, p: Point, db: Database)
    requires Honest(d) && Inv(d, w) && p !in w.history && GoodDatabase(d.g, db)
    requires p.epoch == w.server.epoch ==> p.block > w.server.block
    requires p.epoch != w.server.epoch ==> forall q :: q in w.history ==> q.epoch != p.epoch
    ensures Inv(d, Moved(w, p, db))
  {
    hide GoodDatabase, Mirrors, Bridges, AnswerAll, Asking, Sound;
    var w' := Moved(w, p, db);
    forall q | q in w'.history ensures GoodDatabase(d.g, w'.history[q]) {
      if q != p { assert q in w.history; }
    }
    forall r | r in w'.syncs ensures SyncOk(w'.history, w.client.session, w.client.epoch, r) {
      assert SyncOk(w.history, w.client.session, w.client.epoch, r);
    }
    forall a | a in w'.answers ensures AnswerOk(d.g, w'.history, w.client.session, w.client.epoch, a) {
      assert AnswerOk(d.g, w.history, w.client.session, w.client.epoch, a);
    }
  }

  lemma FreshMirrors<Hint(!new)>(d: Deployment<Hint>, hints: seq<Hint>, block: u64, db: Database)
    requires Honest(d) && GoodDatabase(d.g, db) && PinnedTo(d, hints, db)
    ensures Mirrors(d.up, d.g, FreshSnap(hints, block), db, db)
  {
  }

  lemma SetupKeepsInv<Hint(!new)>(d: Deployment<Hint>, w: World<Hint>, block: u64, hints: seq<Hint>, w': World<Hint>)
    requires Honest(d) && Inv(d, w) && SetsUp(d, w, block, hints, w')
    ensures Inv(d, w')
  {
    hide Bridges, AnswerAll, Mirrors, GoodDatabase, PinnedTo;
    FreshMirrors(d, hints, block, w.history[Point(w.server.epoch, block)]);
    forall r | r in w'.syncs ensures SyncOk(w'.history, w'.client.session, w'.client.epoch, r) {
      assert SyncOk(w.history, w.client.session, w.client.epoch, r);
    }
    forall a | a in w'.answers ensures AnswerOk(d.g, w'.history, w'.client.session, w'.client.epoch, a) {
      assert AnswerOk(d.g, w.history, w.client.session, w.client.epoch, a);
    }
  }

  /** Delivering a span keeps the invariant exactly when it starts from a database that agrees with the mirrored one. */
  lemma DeliverKeepsInvIff<Hint(!new)>(d: Deployment<Hint>, w: World<Hint>, r: SyncReply, w': World<Hint>)
    requires Honest(d) && Inv(d, w) && Delivers(w, r, w')
    ensures Inv(d, w') <==> StartsRight(w, Deliver(r))
  {
    hide Bridges, AnswerAll, GoodDatabase, Tracks, WellFormed, Sound, IngestInto, AnswerOk, SameCells;
    assert SyncOk(w.history, w.client.session, w.client.epoch, r);
    var e, snap := w.client.epoch, w.client.snap;
    var db0, at := w.history[Point(e, snap.pinnedBlock)], w.history[Point(e, snap.pending.head)];
    var from, upto := w.history[Point(e, r.from)], w.history[Point(e, r.delta.block)];
    ValidShape(d);
    if r.delta.block <= snap.pending.head {
      TooLate(snap.pending, r.delta);
    } else {
      FromElsewhere(d.g, snap.pending, r.delta, db0, at, from, upto);
      SameDatabase(d.g, from, at);
      if SameCells(from, at) {
        IngestKeepsMirror(d.up, d.g, snap, r.delta, db0, at, upto);
      }
    }
  }

  lemma TooLate(p: Pending, d: BlockDelta)
    requires d.block <= p.head
    ensures IngestInto(p, d).pending == p
  {
  }

  lemma FromElsewhere(g: Shape, p: Pending, d: BlockDelta, db0: Database, at: Database, from: Database, upto: Database)
    requires g.Valid() && GoodDatabase(g, db0) && GoodDatabase(g, at) && GoodDatabase(g, from) && GoodDatabase(g, upto)
    requires Tracks(p, db0, at) && Bridges(d, from, upto) && d.block > p.head
    ensures IngestInto(p, d).error.None? && IngestInto(p, d).pending.head == d.block
    ensures Tracks(IngestInto(p, d).pending, db0, upto) <==> SameCells(from, at)
  {
    hide Bridges, GoodDatabase, Tracks, IngestInto, InRange;
    GoodInRange(g, db0);
    GoodInRange(g, at);
    GoodInRange(g, from);
    GoodInRange(g, upto);
    DatabaseCount(g, at);
    DatabaseCount(g, from);
    SpanAccepted(p, d, db0, at, from, upto, g.plaintextBits);
    SpanFromElsewhere(p, d, db0, at, from, upto);
    IngestMeaning(p, d);
  }

  lemma ValidShape<Hint(!new)>(d: Deployment<Hint>)
    requires Honest(d)
    ensures d.g.Valid()
  {
  }

  lemma CollectKeepsInv<Hint(!new)>(d: Deployment<Hint>, w: World<Hint>, upto: u64, w': World<Hint>)
    requires Honest(d) && Inv(d, w) && Collects(d, w, upto, w')
    ensures Inv(d, w')
  {
    hide Bridges, AnswerAll, GoodDatabase, Tracks, WellFormed, Sound, Collected, AnswerOk, SyncOk;
    var snap := w.client.snap;
    ValidShape(d);
    if upto == snap.pending.head && upto != snap.pinnedBlock {
      var e := w.client.epoch;
      CollectKeepsMirror(d.up, d.g, snap, w'.client.snap, w.history[Point(e, snap.pinnedBlock)], w.history[Point(e, upto)]);
    }
  }

  lemma AskKeepsInv<Hint(!new)>(d: Deployment<Hint>, w: World<Hint>, key: Address, seeds: seq<nat>, w': World<Hint>)
    requires Honest(d) && Inv(d, w) && Asks(d, w, key, seeds, w')
    ensures Inv(d, w')
  {
    hide Bridges, AnswerAll, GoodDatabase, Tracks, Sound, AnswerOk, SyncOk, RowsFor;
    assert |RowsFor(d.up, d.g, key)| == d.g.arity;
  }

  lemma ServeSyncKeepsInv<Hint(!new)>(d: Deployment<Hint>, w: World<Hint>, from: u64, delta: BlockDelta, w': World<Hint>)
    requires Honest(d) && Inv(d, w) && ServesSync(d, w, from, delta, w')
    ensures Inv(d, w')
  {
    hide Bridges, AnswerAll, GoodDatabase, Mirrors, Asking, Sound, AnswerOk;
  }

  lemma ServeAnswerKeepsInv<Hint(!new)>(d: Deployment<Hint>, w: World<Hint>, queries: seq<seq<u32>>, w': World<Hint>)
    requires Honest(d) && Inv(d, w) && ServesAnswer(d, w, queries, w')
    ensures Inv(d, w')
  {
    hide Bridges, AnswerAll, GoodDatabase, Mirrors, Asking, Sound, SyncOk;
  }

  lemma StepKeepsInv<Hint(!new)>(d: Deployment<Hint>, w: World<Hint>, e: Event<Hint>, w': World<Hint>)
    requires Honest(d) && Inv(d, w) && Step(d, w, e, w') && StartsRight(w, e)
    ensures Inv(d, w')
  {
    hide Inv, Sound, GoodDatabase, SetsUp, ServesSync, Delivers, Collects, Asks, ServesAnswer, StartsRight;
    HeadIsHighest(d, w);
    match e
    case Apply(block, db) => GrowKeepsInv(d, w, Point(w.server.epoch, block), db);
    case Rebootstrap(p, db) => GrowKeepsInv(d, w, p, db);
    case Setup(block, hints) => SetupKeepsInv(d, w, block, hints, w');
    case ServeSync(from, delta) => ServeSyncKeepsInv(d, w, from, delta, w');
    case Deliver(r) => DeliverKeepsInvIff(d, w, r, w');
    case Collect(upto) => CollectKeepsInv(d, w, upto, w');
    case Ask(key, seeds) => AskKeepsInv(d, w, key, seeds, w');
    case ServeAnswer(queries) => ServeAnswerKeepsInv(d, w, queries, w');
  }

  lemma HeadIsHighest<Hint(!new)>(d: Deployment<Hint>, w: World<Hint>)
    requires Honest(d) && Inv(d, w)
    ensures w.server in w.history
    ensures forall p: Point :: p.epoch == w.server.epoch && p.block > w.server.block ==> p !in w.history
  {
  }

  lemma InitInv<Hint(!new)>(d: Deployment<Hint>, w: World<Hint>, hints: seq<Hint>)
    requires Honest(d) && Init(d, w, hints)
    ensures Inv(d, w)
  {
    hide GoodDatabase, Mirrors, Sound, PinnedTo;
    assert w.server in w.history.Keys;
    FreshMirrors(d, hints, w.server.block, w.history[w.server]);
  }

  lemma {:induction false} RunKeepsInv<Hint(!new)>(d: Deployment<Hint>, hints: seq<Hint>, ws: seq<World<Hint>>,
                                                   es: seq<Event<Hint>>, i: nat)
    requires Honest(d) && Run(d, hints, ws, es) && AllStartRight(ws, es) && i < |ws|
    ensures Inv(d, ws[i])
  {
    hide Inv, Step, Sound, Init, StartsRight;
    if i == 0 {
      InitInv(d, ws[0], hints);
    } else {
      RunKeepsInv(d, hints, ws, es, i - 1);
      StepKeepsInv(d, ws[i - 1], es[i - 1], ws[i]);
    }
  }

  /** An answer the client may finish: it came back to this session, for the query now in flight. */
  ghost predicate Answers<Hint>(d: Deployment<Hint>, w: World<Hint>, a: AnswerReply) {
    && a in w.answers && a.session == w.client.session
    && w.client.asked.Some? && a.queries == CtxFor(d.up, w.client.asked.value.secrets).queries
  }

  /**
   Safety over all runs in which every span ingested starts from a database that agrees with the one mirrored.
   Whenever the client finishes a lookup, either the answer was not computed at the client's head, and the
   client says so; or the result is the direct look-up in the database its own lineage had at the block the
   answer names.
   */
  lemma EveryFinishIsRight<Hint(!new)>(d: Deployment<Hint>, hints: seq<Hint>, ws: seq<World<Hint>>,
                                      es: seq<Event<Hint>>, i: nat, a: AnswerReply)
    requires Honest(d) && Run(d, hints, ws, es) && AllStartRight(ws, es) && i < |ws| && Answers(d, ws[i], a)
    ensures var c := ws[i].client;
      var ctx := CtxFor(d.up, c.asked.value.secrets);
      if a.atBlock != c.snap.pending.head then
        FinishFault(d.up, d.g, d.codec, c.snap, c.asked.value.key, ctx, a.resp, a.atBlock)
          == Some(ResponseBlockMismatch(c.snap.pending.head, a.atBlock))
      else
        && Point(c.epoch, a.atBlock) in ws[i].history
        && GoodDatabase(d.g, ws[i].history[Point(c.epoch, a.atBlock)])
        && Ready(d.g, c.snap, ctx, a.resp)
        && FinishSpec(d.up, d.g, d.codec, c.snap, c.asked.value.key, ctx, a.resp, a.atBlock)
             == Done(Ok(DirectLookup(d.up, d.g, d.codec, ws[i].history[Point(c.epoch, a.atBlock)], c.asked.value.key)))
  {
    hide FinishSpec, Ready, DirectLookup, AnswerAll, GoodDatabase, Sound, Step, Init, Bridges, SyncOk, AllStartRight;
    RunKeepsInv(d, hints, ws, es, i);
    var w := ws[i];
    var c := w.client;
    assert AnswerOk(d.g, w.history, c.session, c.epoch, a);
    assert GoodDatabase(d.g, w.history[Point(c.epoch, a.atBlock)]);
    FinishEqualsDirectLookup(d.up, d.g, d.codec, c.snap, c.asked.value.key, c.asked.value.secrets,
                             w.history[Point(c.epoch, c.snap.pinnedBlock)], w.history[Point(c.epoch, c.snap.pending.head)]);
    AnswerCount(d.g, w.history[Point(c.epoch, a.atBlock)], a.queries);
    DatabaseCount(d.g, w.history[Point(c.epoch, a.atBlock)]);
  }

  lemma DatabaseCount(g: Shape, db: Database)
    requires GoodDatabase(g, db)
    ensures |db| == g.arity
  {
  }

  /** One sync at a time is enough: then every span starts from the very database mirrored. */
  lemma OneSyncIsEnough<Hint(!new)>(d: Deployment<Hint>, hints: seq<Hint>, ws: seq<World<Hint>>, es: seq<Event<Hint>>)
    requires Honest(d) && Run(d, hints, ws, es) && OneSyncAtATime(ws, es)
    ensures AllStartRight(ws, es)
  {
    OneSyncStartsRight(d, hints, ws, es, |es|);
    assert ws[..|es| + 1] == ws && es[..|es|] == es;
  }

  lemma {:induction false} OneSyncStartsRight<Hint(!new)>(d: Deployment<Hint>, hints: seq<Hint>, ws: seq<World<Hint>>, es: seq<Event<Hint>>, n: nat)
    requires Honest(d) && Run(d, hints, ws, es) && OneSyncAtATime(ws, es) && n <= |es|
    ensures AllStartRight(ws[..n + 1], es[..n])
  {
    hide Inv, Step, Sound, Init, StartsRight;
    if n > 0 {
      OneSyncStartsRight(d, hints, ws, es, n - 1);
      var vs, fs := ws[..n], es[..n - 1];
      assert Run(d, hints, vs, fs);
      RunKeepsInv(d, hints, vs, fs, n - 1);
      HeadInHistory(d, ws[n - 1]);
      forall i | 0 <= i < n ensures StartsRight(ws[..n + 1][i], es[..n][i]) {
        if i < n - 1 {
          assert StartsRight(vs[i], fs[i]);
        } else {
          FromTheHead(ws[i], es[i]);
        }
      }
    }
  }

  lemma HeadInHistory<Hint(!new)>(d: Deployment<Hint>, w: World<Hint>)
    requires Honest(d) && Inv(d, w)
    ensures Point(w.client.epoch, w.client.snap.pending.head) in w.history
  {
  }

  lemma FromTheHead<Hint>(w: World<Hint>, e: Event<Hint>)
    requires Point(w.client.epoch, w.client.snap.pending.head) in w.history
    requires e.Deliver? ==> e.reply.from == w.client.snap.pending.head
    ensures StartsRight(w, e)
  {
  }
}
