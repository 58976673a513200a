/**
 The premises of `Runs.EveryFinishIsRight` are met: with the ideal backend, any good database and any key, there
 is a run in which the client asks, the server answers at its head, and the client may finish.
 */
module IdealRun {
  import opened Words
  import opened Wrappers
  import opened Coalesce
  import opened Value
  import opened Client
  import opened ClientTheorems
  import opened IdealBackend
  import opened Runs

  function Start(db: Database, block: u64): World<Segment> {
    var p := Point(0, block);
    World(p, map[p := db], ClientSide(0, 0, FreshSnap(db, block), None), {}, {})
  }

  lemma AskedAndAnswered(g: Shape, c: ValueCodec, db: Database, block: u64, key: Address, seeds: seq<nat>)
    returns (d: Deployment<Segment>, ws: seq<World<Segment>>, es: seq<Event<Segment>>, a: AnswerReply)
    requires g.Valid() && c.ValidWidths() && GoodDatabase(g, db) && |seeds| == g.arity
    ensures Honest(d) && Run(d, db, ws, es) && AllStartRight(ws, es) && |ws| == 3 && Answers(d, ws[2], a)
    ensures a.atBlock == ws[2].client.snap.pending.head && ws[2].client.asked.value.key == key
  {
    hide GoodSegment, Sound, RowsFor, SegmentAnswer;
    d := Deployment(Ideal(g, c), g, c);
    SoundIsPossible(g, c);
    var w0 := Start(db, block);
    var secrets := SecretsFor(RowsFor(d.up, g, key), seeds);
    var w1 := w0.(client := w0.client.(snap := Queried(w0.client.snap, secrets), asked := Some(Asked(key, secrets))));
    var queries := CtxFor(d.up, secrets).queries;
    a := AnswerReply(0, queries, AnswerAll(g, db, queries), block);
    var w2 := w1.(answers := {a});
    ws, es := [w0, w1, w2], [Ask(key, seeds), ServeAnswer(queries)];
    assert Step(d, w0, es[0], w1);
    assert Step(d, w1, es[1], w2);
  }
}
