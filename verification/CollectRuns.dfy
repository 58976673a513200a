/** Garbage collection over whole runs: when and how often the client collects never shows in a lookup. */
module CollectRuns {
  import opened Words
  import opened Wrappers
  import opened Deltas
  import opened Coalesce
  import opened Client
  import opened ClientTheorems
  import opened Runs

  function WithoutCollects<Hint>(es: seq<Event<Hint>>): seq<Event<Hint>> {
    if es == [] then []
    else
      var n := |es| - 1;
      WithoutCollects(es[..n]) + if es[n].Collect? then [] else [es[n]]
  }

  /** The same but for the hints and what is pending on top of them. */
  ghost predicate SameView<Hint>(w: World<Hint>, v: World<Hint>) {
    && w.server == v.server && w.history == v.history && w.syncs == v.syncs && w.answers == v.answers
    && w.client.session == v.client.session && w.client.epoch == v.client.epoch && w.client.asked == v.client.asked
    && w.client.snap.pending.head == v.client.snap.pending.head
  }

  lemma CollectKeepsView<Hint(!new)>(d: Deployment<Hint>, w: World<Hint>, e: Event<Hint>, w': World<Hint>)
    requires Honest(d) && Inv(d, w) && e.Collect? && Step(d, w, e, w')
    ensures SameView(w, w') && forall v: World<Hint> :: StartsRight(v, e)
  {
    hide Bridges, AnswerAll, GoodDatabase, Tracks, WellFormed, Sound, Collected, AnswerOk, SyncOk;
    var snap, upto := w.client.snap, e.upto;
    ValidShape(d);
    if upto == snap.pending.head && upto != snap.pinnedBlock {
      CollectKeepsMirror(d.up, d.g, snap, w'.client.snap, w.history[Point(w.client.epoch, snap.pinnedBlock)],
                         w.history[Point(w.client.epoch, upto)]);
    }
  }

  /** A delivered span leaves the head where its block, or the head before it, says. */
  lemma DeliveredHead<Hint(!new)>(d: Deployment<Hint>, w: World<Hint>, r: SyncReply, w': World<Hint>)
    requires Honest(d) && Inv(d, w) && Delivers(w, r, w')
    ensures w'.client.snap.pending.head == Max(w.client.snap.pending.head, r.delta.block)
  {
    hide Bridges, AnswerAll, GoodDatabase, Tracks, WellFormed, Sound, IngestInto, AnswerOk;
    assert SyncOk(w.history, w.client.session, w.client.epoch, r);
    var e, snap := w.client.epoch, w.client.snap;
    ValidShape(d);
    if r.delta.block <= snap.pending.head {
      TooLate(snap.pending, r.delta);
    } else {
      FromElsewhere(d.g, snap.pending, r.delta, w.history[Point(e, snap.pinnedBlock)], w.history[Point(e, snap.pending.head)],
                    w.history[Point(e, r.from)], w.history[Point(e, r.delta.block)]);
    }
  }

  lemma StepKeepsView<Hint(!new)>(d: Deployment<Hint>, w: World<Hint>, v: World<Hint>, e: Event<Hint>, w': World<Hint>, v': World<Hint>)
    requires Honest(d) && Inv(d, w) && Inv(d, v) && SameView(w, v)
    requires !e.Collect? && Step(d, w, e, w') && Step(d, v, e, v')
    ensures SameView(w', v')
  {
    hide Inv, Sound, GoodDatabase, Bridges, AnswerAll, RowsFor, IngestInto;
    if e.Deliver? {
      DeliveredHead(d, w, e.reply, w');
      DeliveredHead(d, v, e.reply, v');
    }
  }

  lemma LastStep<Hint(!new)>(d: Deployment<Hint>, hints: seq<Hint>, ws: seq<World<Hint>>, es: seq<Event<Hint>>)
    requires Honest(d) && Run(d, hints, ws, es) && es != []
    ensures Run(d, hints, ws[..|es|], es[..|es| - 1]) && Step(d, ws[|es| - 1], es[|es| - 1], ws[|es|])
  {
    hide Init, Step;
    assert Step(d, ws[|es| - 1], es[|es| - 1], ws[|es| - 1 + 1]);
  }

  lemma AllButLast<Hint(!new)>(ws: seq<World<Hint>>, es: seq<Event<Hint>>)
    requires |ws| == |es| + 1 && es != [] && AllStartRight(ws, es)
    ensures AllStartRight(ws[..|es|], es[..|es| - 1]) && StartsRight(ws[|es| - 1], es[|es| - 1])
  {
    hide StartsRight;
    forall i | 0 <= i < |es| - 1 ensures StartsRight(ws[..|es|][i], es[..|es| - 1][i]) {
      assert StartsRight(ws[i], es[i]);
    }
  }

  /** Two runs from the same start that differ only in their collections stay alike. */
  lemma {:induction false} RunsStayAlike<Hint(!new)>(d: Deployment<Hint>, hints: seq<Hint>,
                                                     ws: seq<World<Hint>>, es: seq<Event<Hint>>, vs: seq<World<Hint>>, fs: seq<Event<Hint>>)
    requires Honest(d) && Run(d, hints, ws, es) && Run(d, hints, vs, fs) && ws[0] == vs[0]
    requires AllStartRight(ws, es) && WithoutCollects(es) == WithoutCollects(fs)
    ensures AllStartRight(vs, fs) && SameView(ws[|es|], vs[|fs|])
    decreases |es| + |fs|
  {
    hide Inv, Step, Sound, Init, StartsRight, Run, AllStartRight, SameView;
    assert |ws| == |es| + 1 && |vs| == |fs| + 1 by { RunLength(d, hints, ws, es); RunLength(d, hints, vs, fs); }
    var m, n := |es| - 1, |fs| - 1;
    if es != [] && es[m].Collect? {
      LastStep(d, hints, ws, es);
      AllButLast(ws, es);
      RunsStayAlike(d, hints, ws[..m + 1], es[..m], vs, fs);
      RunKeepsInv(d, hints, ws, es, m);
      CollectKeepsView(d, ws[m], es[m], ws[m + 1]);
      ViewsChain(ws[m], ws[m + 1], vs[|fs|]);
    } else if fs != [] && fs[n].Collect? {
      LastStep(d, hints, vs, fs);
      RunsStayAlike(d, hints, ws, es, vs[..n + 1], fs[..n]);
      RunKeepsInv(d, hints, vs[..n + 1], fs[..n], n);
      CollectKeepsView(d, vs[n], fs[n], vs[n + 1]);
      ViewsChain(vs[n], vs[n + 1], ws[|es|]);
      OneMoreRight(vs, fs);
    } else if es != [] {
      assert WithoutCollects(fs) != [] && fs != [];
      LastStep(d, hints, ws, es);
      LastStep(d, hints, vs, fs);
      AllButLast(ws, es);
      SamePush(WithoutCollects(es[..m]), es[m], WithoutCollects(fs[..n]), fs[n]);
      RunsStayAlike(d, hints, ws[..m + 1], es[..m], vs[..n + 1], fs[..n]);
      RunKeepsInv(d, hints, ws, es, m);
      RunKeepsInv(d, hints, vs[..n + 1], fs[..n], n);
      SameStart(ws[m], vs[n], es[m]);
      OneMoreRight(vs, fs);
      StepKeepsView(d, ws[m], vs[n], es[m], ws[m + 1], vs[n + 1]);
    } else {
      assert fs == [];
      SameSelf(ws[0]);
      OneMoreRight(vs, fs);
    }
  }

  lemma RunLength<Hint(!new)>(d: Deployment<Hint>, hints: seq<Hint>, ws: seq<World<Hint>>, es: seq<Event<Hint>>)
    requires Honest(d) && Run(d, hints, ws, es)
    ensures |ws| == |es| + 1
  {
  }

  lemma ViewsChain<Hint>(w: World<Hint>, w': World<Hint>, v: World<Hint>)
    requires SameView(w, w')
    ensures SameView(w, v) ==> SameView(w', v)
    ensures SameView(v, w) ==> SameView(v, w')
  {
  }

  lemma SamePush<T>(a: seq<T>, x: T, b: seq<T>, y: T)
    requires a + [x] == b + [y]
    ensures a == b && x == y
  {
    assert a == (a + [x])[..|a + [x]| - 1] && b == (b + [y])[..|b + [y]| - 1];
    assert x == (a + [x])[|a|] && y == (b + [y])[|b|];
  }

  lemma SameSelf<Hint>(w: World<Hint>)
    ensures SameView(w, w)
  {
  }

  lemma SameStart<Hint>(w: World<Hint>, v: World<Hint>, e: Event<Hint>)
    requires SameView(w, v) && StartsRight(w, e)
    ensures StartsRight(v, e)
  {
  }

  lemma OneMoreRight<Hint>(vs: seq<World<Hint>>, fs: seq<Event<Hint>>)
    requires |vs| == |fs| + 1
    requires fs != [] ==> AllStartRight(vs[..|fs|], fs[..|fs| - 1]) && StartsRight(vs[|fs| - 1], fs[|fs| - 1])
    ensures AllStartRight(vs, fs)
  {
    hide StartsRight;
    forall i | 0 <= i < |fs| ensures StartsRight(vs[i], fs[i]) {
      if i < |fs| - 1 {
        assert StartsRight(vs[..|fs|][i], fs[..|fs| - 1][i]);
      }
    }
  }

  /**
   Inserting or removing collections anywhere in a run never changes a lookup: the same answers can be
   finished, and finishing gives the same, error or result.
   */
  lemma CollectionsNeverShow<Hint(!new)>(d: Deployment<Hint>, hints: seq<Hint>, ws: seq<World<Hint>>, es: seq<Event<Hint>>,
                                        vs: seq<World<Hint>>, fs: seq<Event<Hint>>, a: AnswerReply)
    requires Honest(d) && Run(d, hints, ws, es) && Run(d, hints, vs, fs) && ws[0] == vs[0]
    requires AllStartRight(ws, es) && WithoutCollects(es) == WithoutCollects(fs)
    requires Answers(d, ws[|es|], a)
    ensures Answers(d, vs[|fs|], a)
    ensures var c, b := ws[|es|].client, vs[|fs|].client;
      var key, ctx := c.asked.value.key, CtxFor(d.up, c.asked.value.secrets);
      if a.atBlock != c.snap.pending.head then
        FinishFault(d.up, d.g, d.codec, c.snap, key, ctx, a.resp, a.atBlock)
          == FinishFault(d.up, d.g, d.codec, b.snap, key, ctx, a.resp, a.atBlock)
          == Some(ResponseBlockMismatch(c.snap.pending.head, a.atBlock))
      else
        && Ready(d.g, c.snap, ctx, a.resp) && Ready(d.g, b.snap, ctx, a.resp)
        && FinishSpec(d.up, d.g, d.codec, c.snap, key, ctx, a.resp, a.atBlock)
             == FinishSpec(d.up, d.g, d.codec, b.snap, key, ctx, a.resp, a.atBlock)
  {
    hide FinishSpec, FinishFault, Ready, DirectLookup, AnswerAll, GoodDatabase, Sound, Step, Init, AllStartRight, StartsRight, WithoutCollects;
    RunsStayAlike(d, hints, ws, es, vs, fs);
    EveryFinishIsRight(d, hints, ws, es, |es|, a);
    EveryFinishIsRight(d, hints, vs, fs, |fs|, a);
  }

  // ----- The run without collections -----

  lemma {:induction false} NoneLeft<Hint>(es: seq<Event<Hint>>)
    ensures WithoutCollects(WithoutCollects(es)) == WithoutCollects(es)
  {
    if es != [] {
      var n := |es| - 1;
      NoneLeft(es[..n]);
      if es[n].Collect? {
        assert WithoutCollects(es) == WithoutCollects(es[..n]);
      } else {
        WithoutPush(WithoutCollects(es[..n]), es[n]);
      }
    }
  }

  lemma WithoutPush<Hint>(es: seq<Event<Hint>>, e: Event<Hint>)
    ensures WithoutCollects(es + [e]) == if e.Collect? then WithoutCollects(es) else WithoutCollects(es) + [e]
  {
    assert (es + [e])[..|es|] == es;
  }

  /** What the same event does to a world that looks alike. */
  function Followed<Hint(!new)>(d: Deployment<Hint>, v: World<Hint>, e: Event<Hint>, w': World<Hint>): World<Hint>
    requires e.Ask? ==> d.g.Valid() && |d.up.candidates(e.key).indices| >= d.g.arity && |e.seeds| == d.g.arity == |v.client.snap.states|
  {
    match e
    case Apply(_, _) => v.(server := w'.server, history := w'.history)
    case Rebootstrap(_, _) => v.(server := w'.server, history := w'.history)
    case Setup(_, _) => v.(client := w'.client)
    case ServeSync(_, _) => v.(syncs := w'.syncs)
    case ServeAnswer(_) => v.(answers := w'.answers)
    case Deliver(r) => v.(client := Fed(v.client, r.delta))
    case Collect(_) => v
    case Ask(key, seeds) =>
      var secrets := SecretsFor(RowsFor(d.up, d.g, key), seeds);
      v.(client := v.client.(snap := Queried(v.client.snap, secrets), asked := Some(Asked(key, secrets))))
  }

  lemma CanFollow<Hint(!new)>(d: Deployment<Hint>, w: World<Hint>, v: World<Hint>, e: Event<Hint>, w': World<Hint>) returns (v': World<Hint>)
    requires Honest(d) && Inv(d, w) && Inv(d, v) && SameView(w, v) && Step(d, w, e, w') && !e.Collect?
    ensures Step(d, v, e, v')
  {
    hide Sound, GoodDatabase, Bridges, AnswerAll, RowsFor, IngestInto, Tracks, SyncOk, AnswerOk, Asking;
    v' := Followed(d, v, e, w');
  }

  /** Leaving every collection out of a run leaves a run, from the same start, that looks the same. */
  lemma {:induction false} WithoutCollectsIsRun<Hint(!new)>(d: Deployment<Hint>, hints: seq<Hint>, ws: seq<World<Hint>>, es: seq<Event<Hint>>)
    returns (vs: seq<World<Hint>>)
    requires Honest(d) && Run(d, hints, ws, es) && AllStartRight(ws, es)
    ensures Run(d, hints, vs, WithoutCollects(es)) && vs[0] == ws[0]
    ensures AllStartRight(vs, WithoutCollects(es)) && SameView(ws[|es|], vs[|WithoutCollects(es)|])
  {
    hide Inv, Step, Sound, Init, StartsRight, AllStartRight, SameView;
    if es == [] {
      vs := ws;
    } else {
      var m := |es| - 1;
      LastStep(d, hints, ws, es);
      AllButLast(ws, es);
      vs := WithoutCollectsIsRun(d, hints, ws[..m + 1], es[..m]);
      if !es[m].Collect? {
        var fs := WithoutCollects(es[..m]);
        RunKeepsInv(d, hints, ws, es, m);
        RunKeepsInv(d, hints, vs, fs, |fs|);
        var v' := CanFollow(d, ws[m], vs[|fs|], es[m], ws[m + 1]);
        LongerRun(d, hints, vs, fs, es[m], v');
        vs := vs + [v'];
      }
    }
    NoneLeft(es);
    RunsStayAlike(d, hints, ws, es, vs, WithoutCollects(es));
  }

  lemma LongerRun<Hint(!new)>(d: Deployment<Hint>, hints: seq<Hint>, vs: seq<World<Hint>>, fs: seq<Event<Hint>>, e: Event<Hint>, v': World<Hint>)
    requires Honest(d) && Run(d, hints, vs, fs) && Step(d, vs[|fs|], e, v')
    ensures Run(d, hints, vs + [v'], fs + [e])
  {
    hide Step, Init;
    forall i | 0 <= i < |fs + [e]| ensures Step(d, (vs + [v'])[i], (fs + [e])[i], (vs + [v'])[i + 1]) {
      if i < |fs| {
        assert Step(d, vs[i], fs[i], vs[i + 1]);
      }
    }
  }
}
