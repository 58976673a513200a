/** The sync replies of the run theorem are the ones the node makes. */
module ServedSync {
  import opened Words
  import opened Deltas
  import opened Coalesce
  import opened Node
  import opened NodeTheorems
  import Runs

  /** The states of one lineage, by height. */
  function Lineage(history: map<Runs.Point, Database>, epoch: nat): map<int, Database> {
    map p | p in history && p.epoch == epoch :: p.block as int := history[p]
  }

  /** What a node with true deltas answers to `/sync` is a reply the run theorem takes the server to make. */
  lemma NodeReplyIsServed<Hint>(d: Runs.Deployment<Hint>, w: Runs.World<Hint>, ring: seq<BlockDelta>, from: u64, upto: u64, delta: BlockDelta)
    requires d.g.Valid() && w.client.epoch == w.server.epoch
    requires Ascending(ring) && from < upto && Covers(ring, from, upto)
    requires TrueLog(ring, Lineage(w.history, w.server.epoch), d.g.plaintextBits)
    requires IsCoalesced(Selected(ring, from, upto), delta) && delta.block == upto
    ensures Addable(Selected(ring, from, upto))
    ensures Runs.ServesSync(d, w, from, delta, w.(syncs := w.syncs + {Runs.SyncReply(w.client.session, from, delta)}))
  {
    hide Covers, Bridges, TrueLog, IsCoalesced, Selected, Addable, Ascending;
    SyncReplyBridges(ring, Lineage(w.history, w.server.epoch), from, upto, d.g.plaintextBits);
  }
}
