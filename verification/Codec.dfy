/** The `RPD1` block-delta wire format of `risepir-proto/src/codec.rs`. */
module Codec {
  import opened Words
  import opened Wrappers
  import opened Deltas
  import opened Varint
  import Sorting

  const MAGIC: seq<u8> := [0x52, 0x50, 0x44, 0x31]

  // ----- Encoding -----

  function OffKey(): Edit -> int {
    (e: Edit) => e.off
  }

  function RowKey(): RowEdits -> int {
    (r: RowEdits) => r.row
  }

  function SortCells(cells: seq<Edit>): (s: seq<Edit>)
    ensures |s| == |cells|
  {
    Sorting.StableSort(OffKey(), cells)
  }

  /** Rows ascending, offsets ascending within each row, ties in their original order. */
  function SortSegment(rows: SegmentDelta): (s: SegmentDelta)
    ensures |s| == |rows|
  {
    var sorted := Sorting.StableSort(RowKey(), rows);
    seq(|rows|, i requires 0 <= i < |rows| => RowEdits(sorted[i].row, SortCells(sorted[i].cells)))
  }

  function SortDelta(d: BlockDelta): BlockDelta {
    BlockDelta(d.block, SortSegments(d.perSegment))
  }

  function SortSegments(segs: seq<SegmentDelta>): seq<SegmentDelta> {
    seq(|segs|, j requires 0 <= j < |segs| => SortSegment(segs[j]))
  }

  predicate AscendingCells(cells: seq<Edit>, prev: int) {
    cells != [] ==> prev <= cells[0].off && AscendingCells(cells[1..], cells[0].off)
  }

  predicate AscendingRows(rows: SegmentDelta, prev: int) {
    rows != [] ==> prev <= rows[0].row && AscendingCells(rows[0].cells, 0) && AscendingRows(rows[1..], rows[0].row)
  }

  function EncodeCells(cells: seq<Edit>, prev: nat): (enc: seq<u8>)
    requires AscendingCells(cells, prev)
    ensures |enc| >= 2 * |cells|
  {
    if cells == [] then []
    else Uvarint(cells[0].off - prev) + Uvarint(Zigzag(cells[0].delta)) + EncodeCells(cells[1..], cells[0].off)
  }

  function EncodeRow(r: RowEdits, prev: nat): seq<u8>
    requires prev <= r.row && AscendingCells(r.cells, 0)
  {
    Uvarint(r.row - prev) + (Uvarint(|r.cells|) + EncodeCells(r.cells, 0))
  }

  function EncodeRows(rows: SegmentDelta, prev: nat): (enc: seq<u8>)
    requires AscendingRows(rows, prev)
    ensures |enc| >= 2 * |rows|
  {
    if rows == [] then [] else EncodeRow(rows[0], prev) + EncodeRows(rows[1..], rows[0].row)
  }

  lemma {:induction false} SortedAscendingCells(cells: seq<Edit>, prev: int)
    requires Sorting.SortedBy(OffKey(), cells) && (cells != [] ==> prev <= cells[0].off)
    ensures AscendingCells(cells, prev)
    decreases |cells|
  {
    if cells != [] {
      var key := OffKey();
      assert forall i :: 1 <= i < |cells| ==> key(cells[0]) <= key(cells[i]);
      assert Sorting.SortedBy(key, cells[1..]);
      SortedAscendingCells(cells[1..], cells[0].off);
    }
  }

  lemma {:induction false} SortedAscendingRows(rows: SegmentDelta, prev: int)
    requires Sorting.SortedBy(RowKey(), rows) && (rows != [] ==> prev <= rows[0].row)
    requires forall r :: r in rows ==> AscendingCells(r.cells, 0)
    ensures AscendingRows(rows, prev)
    decreases |rows|
  {
    if rows != [] {
      var key := RowKey();
      assert forall i :: 1 <= i < |rows| ==> key(rows[0]) <= key(rows[i]);
      assert Sorting.SortedBy(key, rows[1..]);
      SortedAscendingRows(rows[1..], rows[0].row);
    }
  }

  lemma SortSegmentAscending(rows: SegmentDelta)
    ensures AscendingRows(SortSegment(rows), 0)
  {
    var sorted := Sorting.StableSort(RowKey(), rows);
    var out := SortSegment(rows);
    Sorting.SortIsStable(RowKey(), rows);
    assert Sorting.SortedBy(RowKey(), out) by {
      forall i, j | 0 <= i < j < |out| ensures RowKey()(out[i]) <= RowKey()(out[j]) {
        assert RowKey()(sorted[i]) <= RowKey()(sorted[j]);
      }
    }
    forall r | r in out ensures AscendingCells(r.cells, 0) {
      var i :| 0 <= i < |out| && out[i] == r;
      Sorting.SortIsStable(OffKey(), sorted[i].cells);
      SortedAscendingCells(SortCells(sorted[i].cells), 0);
    }
    SortedAscendingRows(out, 0);
  }

  function SegmentBytes(rows: SegmentDelta): seq<u8> {
    SortSegmentAscending(rows);
    Uvarint(|rows|) + EncodeRows(SortSegment(rows), 0)
  }

  function EncodeSegments(segs: seq<SegmentDelta>): seq<u8> {
    if segs == [] then [] else SegmentBytes(segs[0]) + EncodeSegments(segs[1..])
  }

  function Header(d: BlockDelta): seq<u8>
    requires |d.perSegment| < 256
  {
    MAGIC + LeBytes(d.block, 8) + [|d.perSegment|]
  }

  /** Magic, block, arity, then every segment's rows in sorted order. */
  function Encode(d: BlockDelta): seq<u8>
    requires |d.perSegment| < 256
  {
    Header(d) + EncodeSegments(d.perSegment)
  }

  method EncodeBlockDelta(d: BlockDelta) returns (out: seq<u8>)
    requires |d.perSegment| < 256 && Countable(d)
    ensures out == Encode(d)
  {
    out := MAGIC + LeBytes(d.block, 8) + [|d.perSegment|];
    out := WriteSegments(out, d.perSegment);
  }

  method WriteSegments(start: seq<u8>, segs: seq<SegmentDelta>) returns (out: seq<u8>)
    requires forall s :: s in segs ==> |s| < TWO_64 && forall r :: r in s ==> |r.cells| < TWO_64
    ensures out == start + EncodeSegments(segs)
  {
    hide SegmentBytes;
    out := start;
    for j := 0 to |segs|
      invariant out + EncodeSegments(segs[j..]) == start + EncodeSegments(segs)
    {
      assert segs[j] in segs;
      assert segs[j..][0] == segs[j] && segs[j..][1..] == segs[j + 1..];
      ghost var before := out;
      out := WriteSegment(out, segs[j]);
      assert (before + SegmentBytes(segs[j])) + EncodeSegments(segs[j + 1..]) == before + EncodeSegments(segs[j..]);
    }
  }

  method WriteSegment(start: seq<u8>, rows: SegmentDelta) returns (out: seq<u8>)
    requires |rows| < TWO_64 && forall r :: r in rows ==> |r.cells| < TWO_64
    ensures out == start + SegmentBytes(rows)
  {
    hide SortSegment, EncodeRows;
    var sorted := SortSegment(rows);
    SortSegmentAscending(rows);
    SortedCounts(rows);
    out := WriteUvarint(start, |sorted|);
    out := WriteRows(out, sorted);
  }

  lemma SortedCounts(rows: SegmentDelta)
    requires forall r :: r in rows ==> |r.cells| < TWO_64
    ensures forall r :: r in SortSegment(rows) ==> |r.cells| < TWO_64
  {
    var sorted := Sorting.StableSort(RowKey(), rows);
    forall i | 0 <= i < |rows| ensures |SortSegment(rows)[i].cells| < TWO_64 {
      Sorting.SortIn(RowKey(), rows, sorted[i]);
    }
  }

  lemma Regroup(x: seq<u8>, a: seq<u8>, b: seq<u8>, c: seq<u8>, rest: seq<u8>)
    ensures (((x + a) + b) + c) + rest == x + ((a + (b + c)) + rest)
    ensures c == [] ==> ((x + a) + b) + rest == x + ((a + b) + rest)
  {
  }

  /** Every count fits the 64-bit length the wire carries. */
  predicate Countable(d: BlockDelta) {
    forall s :: s in d.perSegment ==> |s| < TWO_64 && forall r :: r in s ==> |r.cells| < TWO_64
  }

  method WriteRows(start: seq<u8>, rows: SegmentDelta) returns (out: seq<u8>)
    requires AscendingRows(rows, 0)
    requires forall r :: r in rows ==> |r.cells| < TWO_64
    ensures out == start + EncodeRows(rows, 0)
  {
    hide EncodeRow, Uvarint, EncodeCells, AscendingCells;
    out := start;
    var prev: nat := 0;
    for i := 0 to |rows|
      invariant AscendingRows(rows[i..], prev) && prev < TWO_32
      invariant out + EncodeRows(rows[i..], prev) == start + EncodeRows(rows, 0)
    {
      var r := rows[i];
      EncodeRowsStep(out, rows, i, prev);
      out := WriteUvarint(out, r.row - prev);
      out := WriteUvarint(out, |r.cells|);
      out := WriteCells(out, r.cells);
      prev := r.row;
    }
  }

  lemma EncodeRowsStep(out: seq<u8>, rows: SegmentDelta, i: nat, prev: nat)
    requires i < |rows| && AscendingRows(rows[i..], prev)
    ensures var r := rows[i];
      && prev <= r.row && AscendingCells(r.cells, 0) && AscendingRows(rows[i + 1..], r.row)
      && ((out + Uvarint(r.row - prev)) + Uvarint(|r.cells|)) + EncodeCells(r.cells, 0) + EncodeRows(rows[i + 1..], r.row)
           == out + EncodeRows(rows[i..], prev)
  {
    hide Uvarint, AscendingCells, EncodeCells;
    var r := rows[i];
    assert rows[i..][0] == r && rows[i..][1..] == rows[i + 1..];
    Regroup(out, Uvarint(r.row - prev), Uvarint(|r.cells|), EncodeCells(r.cells, 0), EncodeRows(rows[i + 1..], r.row));
  }

  lemma EncodeCellsStep(out: seq<u8>, cells: seq<Edit>, i: nat, prev: nat)
    requires i < |cells| && AscendingCells(cells[i..], prev)
    ensures var e := cells[i];
      && prev <= e.off && AscendingCells(cells[i + 1..], e.off)
      && (out + Uvarint(e.off - prev)) + Uvarint(Zigzag(e.delta)) + EncodeCells(cells[i + 1..], e.off)
           == out + EncodeCells(cells[i..], prev)
  {
    var e := cells[i];
    assert cells[i..][0] == e && cells[i..][1..] == cells[i + 1..];
    Regroup(out, Uvarint(e.off - prev), Uvarint(Zigzag(e.delta)), [], EncodeCells(cells[i + 1..], e.off));
  }

  method WriteCells(start: seq<u8>, cells: seq<Edit>) returns (out: seq<u8>)
    requires AscendingCells(cells, 0)
    ensures out == start + EncodeCells(cells, 0)
  {
    out := start;
    var prev: nat := 0;
    for i := 0 to |cells|
      invariant AscendingCells(cells[i..], prev) && prev < TWO_16
      invariant out + EncodeCells(cells[i..], prev) == start + EncodeCells(cells, 0)
    {
      var e := cells[i];
      EncodeCellsStep(out, cells, i, prev);
      out := WriteUvarint(out, e.off - prev);
      out := WriteUvarint(out, Zigzag(e.delta));
      prev := e.off;
    }
  }

  // ----- Decoding -----

  function Prepend<T>(xs: seq<T>, r: Result<Parsed<seq<T>>, CodecError>): Result<Parsed<seq<T>>, CodecError> {
    match r
    case Err(e) => Err(e)
    case Ok(p) => Ok(Parsed(xs + p.value, p.pos))
  }

  function ReadCell(bytes: seq<u8>, pos: nat, prev: u16, plaintextBits: nat): Result<Parsed<Edit>, CodecError> {
    match ReadUvarint(bytes, pos, 0)
    case Err(e) => Err(e)
    case Ok(gap) =>
      if prev + gap.value >= TWO_16 then Err(IndexOverflow)
      else match ReadUvarint(bytes, gap.pos, 0)
        case Err(e) => Err(e)
        case Ok(raw) =>
          ReadU64(bytes, gap.pos);
          var delta := Unzigzag(raw.value);
          if Abs(delta) >= Pow2(plaintextBits) then Err(DeltaOutOfRange)
          else Ok(Parsed(Edit(prev + gap.value, delta), raw.pos))
  }

  lemma ReadU64(bytes: seq<u8>, pos: nat)
    ensures ReadUvarint(bytes, pos, 0).Ok? ==>
      var p := ReadUvarint(bytes, pos, 0).value; p.value < TWO_64 && pos < p.pos <= |bytes|
  {
    RoomAtStart();
    if ReadUvarint(bytes, pos, 0).Ok? {
      ReadUvarintBounds(bytes, pos, 0);
    }
  }

  function ReadCells(bytes: seq<u8>, pos: nat, count: nat, prev: u16, plaintextBits: nat): Result<Parsed<seq<Edit>>, CodecError>
    decreases count
  {
    if count == 0 then Ok(Parsed([], pos))
    else match ReadCell(bytes, pos, prev, plaintextBits)
      case Err(e) => Err(e)
      case Ok(c) => Prepend([c.value], ReadCells(bytes, c.pos, count - 1, c.value.off, plaintextBits))
  }

  /** A declared count that exceeds the bytes left is rejected before anything is sized by it. */
  function ReadCount(bytes: seq<u8>, pos: nat): Result<Parsed<nat>, CodecError> {
    match ReadUvarint(bytes, pos, 0)
    case Err(e) => Err(e)
    case Ok(p) => if p.value > |bytes| - p.pos then Err(CountExceedsInput) else Ok(p)
  }

  function ReadRow(bytes: seq<u8>, pos: nat, prev: u32, plaintextBits: nat): Result<Parsed<RowEdits>, CodecError> {
    match ReadUvarint(bytes, pos, 0)
    case Err(e) => Err(e)
    case Ok(gap) =>
      if prev + gap.value >= TWO_32 then Err(IndexOverflow)
      else match ReadCount(bytes, gap.pos)
        case Err(e) => Err(e)
        case Ok(count) => match ReadCells(bytes, count.pos, count.value, 0, plaintextBits)
          case Err(e) => Err(e)
          case Ok(cells) => Ok(Parsed(RowEdits(prev + gap.value, cells.value), cells.pos))
  }

  function ReadRows(bytes: seq<u8>, pos: nat, count: nat, prev: u32, plaintextBits: nat): Result<Parsed<SegmentDelta>, CodecError>
    decreases count
  {
    if count == 0 then Ok(Parsed([], pos))
    else match ReadRow(bytes, pos, prev, plaintextBits)
      case Err(e) => Err(e)
      case Ok(r) => Prepend([r.value], ReadRows(bytes, r.pos, count - 1, r.value.row, plaintextBits))
  }

  function ReadSegment(bytes: seq<u8>, pos: nat, plaintextBits: nat): Result<Parsed<SegmentDelta>, CodecError> {
    match ReadCount(bytes, pos)
    case Err(e) => Err(e)
    case Ok(count) => ReadRows(bytes, count.pos, count.value, 0, plaintextBits)
  }

  function ReadSegments(bytes: seq<u8>, pos: nat, arity: nat, plaintextBits: nat): Result<Parsed<seq<SegmentDelta>>, CodecError>
    decreases arity
  {
    if arity == 0 then Ok(Parsed([], pos))
    else match ReadSegment(bytes, pos, plaintextBits)
      case Err(e) => Err(e)
      case Ok(s) => Prepend([s.value], ReadSegments(bytes, s.pos, arity - 1, plaintextBits))
  }

  function Decode(bytes: seq<u8>, plaintextBits: u32, arity: u32): Result<BlockDelta, CodecError> {
    if !(1 <= plaintextBits <= 31) then Err(DeltaOutOfRange)
    else if |bytes| < 4 || bytes[..4] != MAGIC then Err(BadMagic)
    else if |bytes| < 13 then Err(UnexpectedEof)
    else if bytes[12] != arity then Err(ArityMismatch(arity, bytes[12]))
    else match ReadSegments(bytes, 13, arity, plaintextBits)
      case Err(e) => Err(e)
      case Ok(p) =>
        if p.pos != |bytes| then Err(TrailingBytes)
        else
          EightBytes(bytes[4..12]);
          Ok(BlockDelta(FromLe(bytes[4..12]), p.value))
  }

  method DecodeBlockDelta(bytes: seq<u8>, plaintextBits: u32, arity: u32) returns (r: Result<BlockDelta, CodecError>)
    ensures r == Decode(bytes, plaintextBits, arity)
  {
    if !(1 <= plaintextBits <= 31) {
      return Err(DeltaOutOfRange);
    }
    if |bytes| < 4 || bytes[0..4] != MAGIC {
      return Err(BadMagic);
    }
    var pos := 4;
    if |bytes| < pos + 8 {
      return Err(UnexpectedEof);
    }
    EightBytes(bytes[4..12]);
    var block: u64 := FromLe(bytes[pos..pos + 8]);
    pos := pos + 8;
    if pos >= |bytes| {
      return Err(UnexpectedEof);
    }
    if bytes[pos] != arity {
      return Err(ArityMismatch(arity, bytes[pos]));
    }
    pos := pos + 1;
    var segments := DecodeSegments(bytes, pos, arity, plaintextBits);
    if segments.Err? {
      return Err(segments.error);
    }
    if segments.value.pos != |bytes| {
      return Err(TrailingBytes);
    }
    return Ok(BlockDelta(block, segments.value.value));
  }

  method DecodeSegments(bytes: seq<u8>, start: nat, arity: nat, plaintextBits: nat)
    returns (r: Result<Parsed<seq<SegmentDelta>>, CodecError>)
    ensures r == ReadSegments(bytes, start, arity, plaintextBits)
  {
    hide ReadSegment;
    var segs: seq<SegmentDelta>, pos := [], start;
    ghost var goal := ReadSegments(bytes, start, arity, plaintextBits);
    PrependNothing(goal);
    for j := 0 to arity
      invariant goal == Prepend(segs, ReadSegments(bytes, pos, arity - j, plaintextBits))
    {
      ReadSegmentsStep(segs, bytes, pos, arity - j, plaintextBits);
      var seg := DecodeSegment(bytes, pos, plaintextBits);
      if seg.Err? {
        return Err(seg.error);
      }
      pos := seg.value.pos;
      segs := segs + [seg.value.value];
    }
    PrependAll(segs, pos);
    return Ok(Parsed(segs, pos));
  }

  lemma PrependNothing<T>(r: Result<Parsed<seq<T>>, CodecError>)
    ensures Prepend([], r) == r
  {
    if r.Ok? {
      assert [] + r.value.value == r.value.value;
    }
  }

  lemma PrependAll<T>(xs: seq<T>, pos: nat)
    ensures Prepend(xs, Ok(Parsed([], pos))) == Ok(Parsed(xs, pos))
  {
    assert xs + [] == xs;
  }

  lemma PrependTwice<T>(xs: seq<T>, ys: seq<T>, r: Result<Parsed<seq<T>>, CodecError>)
    ensures Prepend(xs, Prepend(ys, r)) == Prepend(xs + ys, r)
  {
    if r.Ok? {
      assert xs + (ys + r.value.value) == (xs + ys) + r.value.value;
    }
  }

  lemma ReadSegmentsStep(segs: seq<SegmentDelta>, bytes: seq<u8>, pos: nat, arity: nat, plaintextBits: nat)
    requires arity > 0
    ensures Prepend(segs, ReadSegments(bytes, pos, arity, plaintextBits)) ==
      match ReadSegment(bytes, pos, plaintextBits)
      case Err(e) => Err(e)
      case Ok(s) => Prepend(segs + [s.value], ReadSegments(bytes, s.pos, arity - 1, plaintextBits))
  {
    var s := ReadSegment(bytes, pos, plaintextBits);
    if s.Ok? {
      PrependTwice(segs, [s.value.value], ReadSegments(bytes, s.value.pos, arity - 1, plaintextBits));
    }
  }

  lemma ReadRowsStep(rows: SegmentDelta, bytes: seq<u8>, pos: nat, count: nat, prev: u32, plaintextBits: nat)
    requires count > 0
    ensures Prepend(rows, ReadRows(bytes, pos, count, prev, plaintextBits)) ==
      match ReadRow(bytes, pos, prev, plaintextBits)
      case Err(e) => Err(e)
      case Ok(r) => Prepend(rows + [r.value], ReadRows(bytes, r.pos, count - 1, r.value.row, plaintextBits))
  {
    var r := ReadRow(bytes, pos, prev, plaintextBits);
    if r.Ok? {
      PrependTwice(rows, [r.value.value], ReadRows(bytes, r.value.pos, count - 1, r.value.value.row, plaintextBits));
    }
  }

  lemma ReadCellsStep(cells: seq<Edit>, bytes: seq<u8>, pos: nat, count: nat, prev: u16, plaintextBits: nat)
    requires count > 0
    ensures Prepend(cells, ReadCells(bytes, pos, count, prev, plaintextBits)) ==
      match ReadCell(bytes, pos, prev, plaintextBits)
      case Err(e) => Err(e)
      case Ok(c) => Prepend(cells + [c.value], ReadCells(bytes, c.pos, count - 1, c.value.off, plaintextBits))
  {
    var c := ReadCell(bytes, pos, prev, plaintextBits);
    if c.Ok? {
      PrependTwice(cells, [c.value.value], ReadCells(bytes, c.value.pos, count - 1, c.value.value.off, plaintextBits));
    }
  }

  method DecodeSegment(bytes: seq<u8>, start: nat, plaintextBits: nat) returns (r: Result<Parsed<SegmentDelta>, CodecError>)
    ensures r == ReadSegment(bytes, start, plaintextBits)
  {
    var count := DecodeCount(bytes, start);
    if count.Err? {
      return Err(count.error);
    }
    r := DecodeRows(bytes, count.value.pos, count.value.value, plaintextBits);
  }

  method DecodeRows(bytes: seq<u8>, start: nat, count: nat, plaintextBits: nat) returns (r: Result<Parsed<SegmentDelta>, CodecError>)
    ensures r == ReadRows(bytes, start, count, 0, plaintextBits)
  {
    hide ReadRow;
    var rows: SegmentDelta, pos := [], start;
    var prev: u32 := 0;
    ghost var goal := ReadRows(bytes, start, count, 0, plaintextBits);
    PrependNothing(goal);
    for i := 0 to count
      invariant goal == Prepend(rows, ReadRows(bytes, pos, count - i, prev, plaintextBits))
    {
      ReadRowsStep(rows, bytes, pos, count - i, prev, plaintextBits);
      var row := DecodeRow(bytes, pos, prev, plaintextBits);
      if row.Err? {
        return Err(row.error);
      }
      pos, prev := row.value.pos, row.value.value.row;
      rows := rows + [row.value.value];
    }
    PrependAll(rows, pos);
    return Ok(Parsed(rows, pos));
  }

  method DecodeCount(bytes: seq<u8>, pos: nat) returns (r: Result<Parsed<nat>, CodecError>)
    ensures r == ReadCount(bytes, pos)
  {
    r := ReadUvarintLoop(bytes, pos);
    if r.Ok? && r.value.value > |bytes| - r.value.pos {
      r := Err(CountExceedsInput);
    }
  }

  method DecodeRow(bytes: seq<u8>, start: nat, prev: u32, plaintextBits: nat) returns (r: Result<Parsed<RowEdits>, CodecError>)
    ensures r == ReadRow(bytes, start, prev, plaintextBits)
  {
    hide ReadCells;
    var gap := ReadUvarintLoop(bytes, start);
    if gap.Err? {
      return Err(gap.error);
    }
    if prev + gap.value.value >= TWO_32 {
      return Err(IndexOverflow);
    }
    var count := DecodeCount(bytes, gap.value.pos);
    if count.Err? {
      return Err(count.error);
    }
    var cells := DecodeCells(bytes, count.value.pos, count.value.value, plaintextBits);
    if cells.Err? {
      return Err(cells.error);
    }
    return Ok(Parsed(RowEdits(prev + gap.value.value, cells.value.value), cells.value.pos));
  }

  method DecodeCells(bytes: seq<u8>, start: nat, count: nat, plaintextBits: nat) returns (r: Result<Parsed<seq<Edit>>, CodecError>)
    ensures r == ReadCells(bytes, start, count, 0, plaintextBits)
  {
    var cells: seq<Edit>, pos := [], start;
    var off: u16 := 0;
    ghost var goal := ReadCells(bytes, start, count, 0, plaintextBits);
    PrependNothing(goal);
    for i := 0 to count
      invariant goal == Prepend(cells, ReadCells(bytes, pos, count - i, off, plaintextBits))
    {
      ReadCellsStep(cells, bytes, pos, count - i, off, plaintextBits);
      var cell := DecodeCell(bytes, pos, off, plaintextBits);
      if cell.Err? {
        return Err(cell.error);
      }
      pos, off := cell.value.pos, cell.value.value.off;
      cells := cells + [cell.value.value];
    }
    PrependAll(cells, pos);
    return Ok(Parsed(cells, pos));
  }

  method DecodeCell(bytes: seq<u8>, start: nat, prev: u16, plaintextBits: nat) returns (r: Result<Parsed<Edit>, CodecError>)
    ensures r == ReadCell(bytes, start, prev, plaintextBits)
  {
    var gap := ReadUvarintLoop(bytes, start);
    if gap.Err? {
      return Err(gap.error);
    }
    if prev + gap.value.value >= TWO_16 {
      return Err(IndexOverflow);
    }
    var raw := ReadUvarintLoop(bytes, gap.value.pos);
    if raw.Err? {
      return Err(raw.error);
    }
    ReadU64(bytes, gap.value.pos);
    var delta := Unzigzag(raw.value.value);
    if Abs(delta) >= Pow2(plaintextBits) {
      return Err(DeltaOutOfRange);
    }
    return Ok(Parsed(Edit(prev + gap.value.value, delta), raw.value.pos));
  }
}
