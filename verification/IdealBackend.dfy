/**
 The promises `Client.Sound` asks of the upstream crates can be kept: a backend whose hint simply is the
 pinned segment keeps them, in every valid geometry. The theorems about the client are not about nothing.
 */
module IdealBackend {
  import opened Words
  import opened Wrappers
  import opened Deltas
  import opened Coalesce
  import opened Value
  import opened Scan
  import opened Client

  function AsU32(x: int): u32 {
    if 0 <= x < TWO_32 then x else 0
  }

  function Shifted(d: Segment, rows: SegmentDelta, i: nat, o: nat): u32
    requires i < |d| && o < |d[i]|
  {
    AsU32(d[i][o] + if i < TWO_32 && o < TWO_16 then Total(rows, Cell(i, o)) else 0)
  }

  /** A segment with a delta added, cell by cell. */
  function Patched(d: Segment, rows: SegmentDelta): (d': Segment)
    ensures |d'| == |d| && forall i :: 0 <= i < |d| ==> |d'[i]| == |d[i]|
  {
    seq(|d|, i requires 0 <= i < |d| => PatchedRow(d, rows, i))
  }

  function PatchedRow(d: Segment, rows: SegmentDelta, i: nat): (row: seq<u32>)
    requires i < |d|
    ensures |row| == |d[i]|
  {
    seq(|d[i]|, o requires 0 <= o < |d[i]| => Shifted(d, rows, i, o))
  }

  function PinnedRow(st: ClientState<Segment>, width: nat): (row: seq<u32>)
    ensures |row| == width
  {
    if st.inFlight.Some? && st.inFlight.value.row < |st.hint| && |st.hint[st.inFlight.value.row]| == width
    then st.hint[st.inFlight.value.row] else seq(width, _ => 0)
  }

  function Ideal(g: Shape, c: ValueCodec): Upstream<Segment>
    requires g.Valid()
  {
    Upstream((a: Address) => Candidates(0, seq(g.arity, _ => 0)),
             (cells: seq<u32>) => Slot(0, seq(c.Size(), _ => 0)),
             (s: Secret) => seq(g.QueryRows(), _ => 0),
             (st: ClientState<Segment>, resp: seq<u32>) => PinnedRow(st, g.Width()),
             (h: Segment, rows: SegmentDelta) => Patched(h, rows),
             (h: Segment, d: Segment) => h == d)
  }

  lemma PatchedMoves(g: Shape, d: Segment, d': Segment, rows: SegmentDelta)
    requires g.Valid() && GoodSegment(g, d) && GoodSegment(g, d') && Moves(rows, d, d')
    ensures Patched(d, rows) == d'
  {
    hide Total, Canonical;
    forall i | 0 <= i < |d| ensures Patched(d, rows)[i] == d'[i] {
      assert d[i] in d && d'[i] in d';
      forall o | 0 <= o < |d[i]| ensures PatchedRow(d, rows, i)[o] == d'[i][o] {
        assert Total(rows, Cell(i, o)) == CellOf(d', Cell(i, o)) - CellOf(d, Cell(i, o));
      }
    }
  }

  lemma SoundIsPossible(g: Shape, c: ValueCodec)
    requires g.Valid() && c.ValidWidths()
    ensures WellFormed(Ideal(g, c), g, c) && Sound(Ideal(g, c), g)
  {
    hide GoodSegment, Moves, Patched;
    var up := Ideal(g, c);
    forall h, d, d', rows | up.pins(h, d) && GoodSegment(g, d) && GoodSegment(g, d') && Moves(rows, d, d')
      ensures up.pins(up.patch(h, rows), d')
    {
      PatchedMoves(g, d, d', rows);
    }
    forall h, d, s: Secret | up.pins(h, d) && GoodSegment(g, d) && s.row < g.segmentSize && s.row < |d|
      ensures up.decode(ClientState(h, Some(s)), SegmentAnswer(g, d, up.query(s))) == d[s.row]
    {
      SegmentRow(g, d, s.row);
    }
  }

  lemma SegmentRow(g: Shape, d: Segment, row: u32)
    requires GoodSegment(g, d) && row < |d|
    ensures |d[row]| == g.Width()
  {
    assert d[row] in d;
  }
}
