/** The bit-packed value `key_tag | balance | checksum` of `risepir-proto/src/value.rs`. */
module Value {
  import opened Words
  import opened Wrappers
  import Fnv

  type Address = seq<u8>

  datatype Lookup = Found(balance: nat) | NotFound | DecodeFailed

  datatype ValueError = BalanceOverflow | InvalidWidth

  /** The codec's three widths; `hash` is the seeded 64-bit address hash, which is not part of this model. */
  datatype ValueCodec = ValueCodec(keyTagBits: u32, balanceBits: u32, checksumBits: u32, hash: Address -> u64) {
    function ValueBits(): nat {
      keyTagBits + balanceBits + checksumBits
    }

    /** Bytes per encoded value. */
    function Size(): (n: nat)
      ensures ValueBits() <= 8 * n
    {
      DivCeil(ValueBits(), 8)
    }

    predicate ValidWidths() {
      keyTagBits <= 64 && balanceBits <= 128 && checksumBits <= 64
    }

    function KeyTag(addr: Address): nat {
      if keyTagBits == 0 then 0 else Truncate(hash(addr), keyTagBits)
    }

    function Checksum(balance: nat): nat {
      if checksumBits == 0 then 0 else Truncate(Fnv.Hash(BalanceBytes(balance)), checksumBits)
    }

    /** The low `ceil(balanceBits / 8)` bytes of the balance, which are what the checksum covers. */
    function BalanceBytes(balance: nat): seq<u8> {
      LeBytes(balance, DivCeil(balanceBits, 8))
    }
  }

  /** The low `bits` bits of a 64-bit hash. */
  function Truncate(h: u64, bits: nat): nat {
    if bits >= 64 then h else And(h, Pow2(bits) - 1)
  }

  lemma TruncateIsMod(h: u64, bits: nat)
    requires bits <= 64
    ensures Truncate(h, bits) == h % Pow2(bits)
  {
    if bits == 64 {
      TruncateNothing(h);
    } else {
      AndMask(h, bits);
    }
  }

  lemma TruncateNothing(h: u64)
    ensures h % Pow2(64) == h
  {
    Pow2Values();
  }

  /** The tag is the low bits of the address hash, the checksum those of FNV-1a over the balance's bytes. */
  lemma TagsFit(c: ValueCodec, addr: Address, balance: nat)
    requires c.ValidWidths()
    ensures c.KeyTag(addr) == c.hash(addr) % Pow2(c.keyTagBits) < Pow2(c.keyTagBits)
    ensures c.Checksum(balance) == Fnv.Hash(c.BalanceBytes(balance)) % Pow2(c.checksumBits)
  {
    TruncateIsMod(c.hash(addr), c.keyTagBits);
    TruncateIsMod(Fnv.Hash(c.BalanceBytes(balance)), c.checksumBits);
  }

  lemma {:induction false} LeBytesBit(x: nat, n: nat, j: nat, t: nat)
    requires j < n && t < 8
    ensures Bit(LeBytes(x, n)[j], t) == Bit(x, 8 * j + t)
  {
    if j == 0 {
      ByteBits(x, t);
    } else {
      LeBytesBit(x / 256, n - 1, j - 1, t);
      ByteShift(x, 8 * (j - 1) + t);
    }
  }

  lemma ByteBits(x: nat, t: nat)
    requires t < 8
    ensures Bit(x % 256, t) == Bit(x, t)
  {
    Pow2Values();
    ModUnique(x % 256, 0, 256, x % 256);
    ModBits(x % 256, x, 8);
  }

  lemma ByteShift(x: nat, i: nat)
    ensures Bit(x / 256, i) == Bit(x, 8 + i)
  {
    var y := x / 2 / 2 / 2 / 2;
    assert Bit(x, 8 + i) == Bit(x / 2 / 2, 6 + i) == Bit(y, 4 + i);
    assert Bit(y, 4 + i) == Bit(y / 2 / 2, 2 + i) == Bit(y / 2 / 2 / 2 / 2, i);
  }

  // ----- The bit buffer -----

  /** Bit `p` of a buffer read as one little-endian bit string. */
  function BufBit(buf: seq<u8>, p: nat): nat
    requires p < 8 * |buf|
  {
    Bit(buf[p / 8], p % 8)
  }

  /** The `n`-bit field at bit offset `pos`. */
  function Field(buf: seq<u8>, pos: nat, n: nat): (x: nat)
    requires pos + n <= 8 * |buf|
    ensures x < Pow2(n)
  {
    if n == 0 then 0
    else Field(buf, pos, n - 1) + (if BufBit(buf, pos + n - 1) == 1 then Pow2(n - 1) else 0)
  }

  lemma {:induction false} FieldBit(buf: seq<u8>, pos: nat, n: nat, i: nat)
    requires pos + n <= 8 * |buf| && i < n
    ensures Bit(Field(buf, pos, n), i) == BufBit(buf, pos + i)
  {
    BitIsSmall(buf, pos + n - 1);
    hide BufBit, Pow2, Bit;
    var low := Field(buf, pos, n - 1);
    assert Field(buf, pos, n) == low + if BufBit(buf, pos + n - 1) == 1 then Pow2(n - 1) else 0;
    hide Field;
    AddTopBit(low, n - 1, BufBit(buf, pos + n - 1), i);
    if i < n - 1 {
      FieldBit(buf, pos, n - 1, i);
    }
  }

  lemma BitIsSmall(buf: seq<u8>, p: nat)
    requires p < 8 * |buf|
    ensures BufBit(buf, p) <= 1
  {
  }

  lemma {:induction false} AddTopBit(low: nat, n: nat, b: nat, i: nat)
    requires low < Pow2(n) && b <= 1 && i <= n
    ensures Bit(low + (if b == 1 then Pow2(n) else 0), i) == if i < n then Bit(low, i) else b
  {
    if i > 0 {
      AddTopBit(low / 2, n - 1, b, i - 1);
    } else if n == 0 {
      assert low == 0;
    }
  }

  /** A field is the value whose bits it holds. */
  lemma FieldIs(buf: seq<u8>, pos: nat, n: nat, x: nat)
    requires pos + n <= 8 * |buf| && x < Pow2(n)
    requires forall i: nat :: i < n ==> BufBit(buf, pos + i) == Bit(x, i)
    ensures Field(buf, pos, n) == x
  {
    forall i: nat | i < n ensures Bit(Field(buf, pos, n), i) == Bit(x, i) {
      FieldBit(buf, pos, n, i);
    }
    BitsEqual(Field(buf, pos, n), x, n);
  }

  lemma {:induction false} FieldSame(a: seq<u8>, b: seq<u8>, pos: nat, n: nat)
    requires |a| == |b| && pos + n <= 8 * |a|
    requires forall p :: pos <= p < pos + n ==> BufBit(a, p) == BufBit(b, p)
    ensures Field(a, pos, n) == Field(b, pos, n)
  {
    if n > 0 {
      FieldSame(a, b, pos, n - 1);
    }
  }

  lemma OrPow2Byte(x: u8, t: nat)
    requires t < 8
    ensures Or(x, Pow2(t)) < 256
    ensures forall i :: 0 <= i < 8 ==> Bit(Or(x, Pow2(t)), i) == if i == t then 1 else Bit(x, i)
  {
    Pow2Values();
    Pow2Monotone(t, 7);
    BitwiseBounds(x, Pow2(t), 8);
    forall i | 0 <= i < 8 ensures Bit(Or(x, Pow2(t)), i) == if i == t then 1 else Bit(x, i) {
      BitOr(x, Pow2(t), i);
      BitPow2(t, i);
    }
  }

  /** What `write_bits` leaves in the buffer: the value's bits or-ed into the field, every other bit as it was. */
  ghost predicate Written(before: seq<u8>, after: seq<u8>, pos: nat, n: nat, value: nat) {
    |after| == |before| && forall p: nat :: p < 8 * |before| ==>
      BufBit(after, p) == if pos <= p < pos + n then Max(BufBit(before, p), Bit(value, p - pos)) else BufBit(before, p)
  }

  method WriteBits(buf: array<u8>, bitPos: nat, value: nat, numBits: nat) returns (newPos: nat)
    requires bitPos + numBits <= 8 * buf.Length
    modifies buf
    ensures newPos == bitPos + numBits
    ensures Written(old(buf[..]), buf[..], bitPos, numBits, value)
  {
    newPos := bitPos;
    ghost var start := buf[..];
    for i := 0 to numBits
      invariant newPos == bitPos + i
      invariant Written(start, buf[..], bitPos, i, value)
    {
      ghost var before := buf[..];
      if Bit(value, i) == 1 {
        OrPow2Byte(buf[newPos / 8], newPos % 8);
        buf[newPos / 8] := Or(buf[newPos / 8], Pow2(newPos % 8));
        SetBit(before, newPos);
        assert buf[..] == before[newPos / 8 := Or(before[newPos / 8], Pow2(newPos % 8))];
      }
      newPos := newPos + 1;
    }
  }

  lemma SetBit(buf: seq<u8>, p: nat)
    requires p < 8 * |buf|
    ensures Or(buf[p / 8], Pow2(p % 8)) < 256
    ensures forall q: nat :: q < 8 * |buf| ==>
      BufBit(buf[p / 8 := Or(buf[p / 8], Pow2(p % 8))], q) == if q == p then 1 else BufBit(buf, q)
  {
    OrPow2Byte(buf[p / 8], p % 8);
    var after := buf[p / 8 := Or(buf[p / 8], Pow2(p % 8))];
    forall q: nat | q < 8 * |buf| ensures BufBit(after, q) == if q == p then 1 else BufBit(buf, q) {
      assert q == 8 * (q / 8) + q % 8 && p == 8 * (p / 8) + p % 8;
    }
  }

  method ReadBits(buf: seq<u8>, bitPos: nat, numBits: nat) returns (value: nat, newPos: nat)
    requires bitPos + numBits <= 8 * |buf|
    ensures newPos == bitPos + numBits
    ensures value == Field(buf, bitPos, numBits)
  {
    hide Or, Pow2, Bit;
    value, newPos := 0, bitPos;
    for i := 0 to numBits
      invariant newPos == bitPos + i
      invariant value == Field(buf, bitPos, i)
    {
      if BufBit(buf, newPos) != 0 {
        OrAbove(value, i);
        value := Or(value, Pow2(i));
      }
      newPos := newPos + 1;
    }
  }

  lemma {:induction false} OrAbove(x: nat, n: nat)
    requires x < Pow2(n)
    ensures Or(x, Pow2(n)) == x + Pow2(n)
  {
    if n > 0 {
      OrAbove(x / 2, n - 1);
    } else {
      assert Or(0, 1) == 2 * Or(0, 0) + 1;
    }
  }

  lemma WrittenField(before: seq<u8>, after: seq<u8>, pos: nat, n: nat, value: nat)
    requires pos + n <= 8 * |before| && value < Pow2(n)
    requires Written(before, after, pos, n, value)
    requires forall p :: pos <= p < pos + n ==> BufBit(before, p) == 0
    ensures Field(after, pos, n) == value
  {
    FieldIs(after, pos, n, value);
  }

  /** Reading undoes writing into a zeroed field, at any offset and width, and every other field reads as before. */
  lemma ReadUndoesWrite(before: seq<u8>, after: seq<u8>, pos: nat, n: nat, value: nat)
    requires pos + n <= 8 * |before| && value < Pow2(n)
    requires Written(before, after, pos, n, value)
    requires forall p :: pos <= p < pos + n ==> BufBit(before, p) == 0
    ensures Field(after, pos, n) == value
    ensures forall p, m :: 0 <= p && 0 <= m && p + m <= 8 * |before| && (p + m <= pos || pos + n <= p) ==>
      Field(after, p, m) == Field(before, p, m)
  {
    WrittenField(before, after, pos, n, value);
    forall p, m | 0 <= p && 0 <= m && p + m <= 8 * |before| && (p + m <= pos || pos + n <= p)
      ensures Field(after, p, m) == Field(before, p, m)
    {
      FieldSame(after, before, p, m);
    }
  }

  // ----- Encoding and decoding -----

  function TagField(c: ValueCodec, bytes: seq<u8>): nat
    requires |bytes| == c.Size()
  {
    Field(bytes, 0, c.keyTagBits)
  }

  function BalanceField(c: ValueCodec, bytes: seq<u8>): (x: nat)
    requires |bytes| == c.Size()
    ensures x < Pow2(c.balanceBits)
  {
    Field(bytes, c.keyTagBits, c.balanceBits)
  }

  function ChecksumField(c: ValueCodec, bytes: seq<u8>): nat
    requires |bytes| == c.Size()
  {
    Field(bytes, c.keyTagBits + c.balanceBits, c.checksumBits)
  }

  predicate ZeroFrom(buf: seq<u8>, pos: nat) {
    forall p: nat :: pos <= p < 8 * |buf| ==> BufBit(buf, p) == 0
  }

  /** The bytes hold the three fields in order, in exactly enough bytes. */
  predicate Layout(c: ValueCodec, bytes: seq<u8>, tag: nat, balance: nat, checksum: nat) {
    && |bytes| == c.Size()
    && TagField(c, bytes) == tag && BalanceField(c, bytes) == balance && ChecksumField(c, bytes) == checksum
    && ZeroFrom(bytes, c.ValueBits())
  }

  method Encode(c: ValueCodec, addr: Address, balance: nat) returns (r: Result<seq<u8>, ValueError>)
    requires balance < Pow2(128)
    ensures r == Err(InvalidWidth) <==> !c.ValidWidths()
    ensures r == Err(BalanceOverflow) <==> c.ValidWidths() && balance >= Pow2(c.balanceBits)
    ensures r.Ok? ==> Layout(c, r.value, c.KeyTag(addr), balance, c.Checksum(balance))
  {
    hide Layout, Pow2;
    if !c.ValidWidths() {
      return Err(InvalidWidth);
    }
    Pow2Monotone(c.balanceBits, 128);
    if c.balanceBits < 128 && balance >= Pow2(c.balanceBits) {
      return Err(BalanceOverflow);
    }
    TagsFit(c, addr, balance);
    var bytes := Pack(c, c.KeyTag(addr), balance, c.Checksum(balance));
    return Ok(bytes);
  }

  method Pack(c: ValueCodec, tag: nat, balance: nat, checksum: nat) returns (bytes: seq<u8>)
    requires tag < Pow2(c.keyTagBits) && balance < Pow2(c.balanceBits) && checksum < Pow2(c.checksumBits)
    ensures Layout(c, bytes, tag, balance, checksum)
  {
    hide Written, Layout, ZeroFrom, TagField, BalanceField, Pow2;
    var buf := new u8[c.Size()](_ => 0);
    ghost var zero := buf[..];
    var pos := WriteBits(buf, 0, tag, c.keyTagBits);
    ghost var one := buf[..];
    pos := WriteBits(buf, pos, balance, c.balanceBits);
    ghost var two := buf[..];
    PackedTwo(c, zero, one, two, tag, balance);
    pos := WriteBits(buf, pos, checksum, c.checksumBits);
    bytes := buf[..];
    PackedThree(c, two, bytes, checksum);
  }

  lemma PackedThree(c: ValueCodec, two: seq<u8>, three: seq<u8>, checksum: nat)
    requires |two| == c.Size() && checksum < Pow2(c.checksumBits)
    requires Written(two, three, c.keyTagBits + c.balanceBits, c.checksumBits, checksum)
    requires ZeroFrom(two, c.keyTagBits + c.balanceBits)
    ensures Layout(c, three, TagField(c, two), BalanceField(c, two), checksum)
  {
    hide Written, ZeroFrom, Field, Pow2;
    var pos := c.keyTagBits + c.balanceBits;
    AppendField(two, three, pos, c.checksumBits, checksum);
    FieldKept(two, three, pos, c.checksumBits, checksum, 0, c.keyTagBits);
    FieldKept(two, three, pos, c.checksumBits, checksum, c.keyTagBits, c.balanceBits);
  }

  lemma PackedTwo(c: ValueCodec, zero: seq<u8>, one: seq<u8>, two: seq<u8>, tag: nat, balance: nat)
    requires |zero| == c.Size() && forall b :: b in zero ==> b == 0
    requires tag < Pow2(c.keyTagBits) && balance < Pow2(c.balanceBits)
    requires Written(zero, one, 0, c.keyTagBits, tag)
    requires Written(one, two, c.keyTagBits, c.balanceBits, balance)
    ensures |two| == c.Size() && TagField(c, two) == tag && BalanceField(c, two) == balance
    ensures ZeroFrom(two, c.keyTagBits + c.balanceBits)
  {
    ZeroBits(zero);
    AppendField(zero, one, 0, c.keyTagBits, tag);
    AppendField(one, two, c.keyTagBits, c.balanceBits, balance);
    FieldKept(one, two, c.keyTagBits, c.balanceBits, balance, 0, c.keyTagBits);
  }

  lemma FieldKept(before: seq<u8>, after: seq<u8>, pos: nat, n: nat, value: nat, p: nat, m: nat)
    requires Written(before, after, pos, n, value) && p + m <= pos <= 8 * |before|
    ensures Field(after, p, m) == Field(before, p, m)
  {
    FieldSame(after, before, p, m);
  }

  lemma AppendField(before: seq<u8>, after: seq<u8>, pos: nat, n: nat, value: nat)
    requires pos + n <= 8 * |before| && value < Pow2(n)
    requires Written(before, after, pos, n, value) && ZeroFrom(before, pos)
    ensures |after| == |before| && Field(after, pos, n) == value && ZeroFrom(after, pos + n)
  {
    WrittenField(before, after, pos, n, value);
  }

  lemma ZeroBits(buf: seq<u8>)
    requires forall b :: b in buf ==> b == 0
    ensures ZeroFrom(buf, 0)
  {
    forall p: nat | p < 8 * |buf| ensures BufBit(buf, p) == 0 {
      assert buf[p / 8] in buf;
      BitSmall(0, p % 8, 0);
    }
  }

  function Decoded(c: ValueCodec, addr: Address, bytes: seq<u8>): Lookup {
    if !c.ValidWidths() || |bytes| != c.Size() then DecodeFailed
    else
      if TagField(c, bytes) != c.KeyTag(addr) then NotFound
      else if ChecksumField(c, bytes) != c.Checksum(BalanceField(c, bytes)) then DecodeFailed
      else Found(BalanceField(c, bytes))
  }

  method Decode(c: ValueCodec, addr: Address, bytes: seq<u8>) returns (r: Lookup)
    ensures r == Decoded(c, addr, bytes)
  {
    if !c.ValidWidths() {
      return DecodeFailed;
    }
    if |bytes| != c.Size() {
      return DecodeFailed;
    }
    hide TagField, BalanceField, ChecksumField;
    var storedTag, balance, storedSum := ReadFields(c, bytes);
    if storedTag != c.KeyTag(addr) {
      return NotFound;
    }
    if storedSum != c.Checksum(balance) {
      return DecodeFailed;
    }
    return Found(balance);
  }

  method ReadFields(c: ValueCodec, bytes: seq<u8>) returns (tag: nat, balance: nat, checksum: nat)
    requires |bytes| == c.Size()
    ensures tag == TagField(c, bytes) && balance == BalanceField(c, bytes) && checksum == ChecksumField(c, bytes)
  {
    hide Field, Pow2;
    var pos;
    tag, pos := ReadBits(bytes, 0, c.keyTagBits);
    balance, pos := ReadBits(bytes, pos, c.balanceBits);
    checksum, pos := ReadBits(bytes, pos, c.checksumBits);
  }

  /** The tag as stored, with no comparison. */
  method ExtractKeyTag(c: ValueCodec, bytes: seq<u8>) returns (tag: nat)
    requires c.keyTagBits <= 8 * |bytes|
    ensures tag == Field(bytes, 0, c.keyTagBits)
  {
    var pos;
    tag, pos := ReadBits(bytes, 0, c.keyTagBits);
  }

  /** Every value that fits comes back, to its own address and to any address with the same tag; nobody else sees it. */
  lemma RoundTrip(c: ValueCodec, addr: Address, other: Address, balance: nat, bytes: seq<u8>)
    requires c.ValidWidths()
    requires Layout(c, bytes, c.KeyTag(addr), balance, c.Checksum(balance))
    ensures Decoded(c, other, bytes) == if c.KeyTag(other) == c.KeyTag(addr) then Found(balance) else NotFound
  {
  }

  /** The encoding of a value is unique. */
  lemma LayoutUnique(c: ValueCodec, a: seq<u8>, b: seq<u8>, tag: nat, balance: nat, checksum: nat)
    requires Layout(c, a, tag, balance, checksum) && Layout(c, b, tag, balance, checksum)
    ensures a == b
  {
    forall p: nat | p < 8 * |a| ensures BufBit(a, p) == BufBit(b, p) {
      if p < c.keyTagBits {
        SameFieldBit(a, b, 0, c.keyTagBits, p);
      } else if p < c.keyTagBits + c.balanceBits {
        SameFieldBit(a, b, c.keyTagBits, c.balanceBits, p);
      } else if p < c.ValueBits() {
        SameFieldBit(a, b, c.keyTagBits + c.balanceBits, c.checksumBits, p);
      }
    }
    SameBitsSameBytes(a, b);
  }

  lemma SameFieldBit(a: seq<u8>, b: seq<u8>, pos: nat, n: nat, p: nat)
    requires pos + n <= 8 * |a| && |a| == |b| && pos <= p < pos + n
    requires Field(a, pos, n) == Field(b, pos, n)
    ensures BufBit(a, p) == BufBit(b, p)
  {
    FieldBit(a, pos, n, p - pos);
    FieldBit(b, pos, n, p - pos);
  }

  lemma SameBitsSameBytes(a: seq<u8>, b: seq<u8>)
    requires |a| == |b| && forall p: nat :: p < 8 * |a| ==> BufBit(a, p) == BufBit(b, p)
    ensures a == b
  {
    forall j | 0 <= j < |a| ensures a[j] == b[j] {
      forall t: nat | t < 8 ensures Bit(a[j], t) == Bit(b[j], t) {
        assert BufBit(a, 8 * j + t) == BufBit(b, 8 * j + t);
      }
      Pow2Values();
      BitsEqual(a[j], b[j], 8);
    }
  }

  // ----- Corruption -----

  ghost predicate BitFlipped(a: seq<u8>, b: seq<u8>, p: nat) {
    && |a| == |b| && p < 8 * |a|
    && forall q: nat :: q < 8 * |a| ==> BufBit(b, q) == if q == p then 1 - BufBit(a, p) else BufBit(a, q)
  }

  lemma FlippedField(a: seq<u8>, b: seq<u8>, p: nat, pos: nat, n: nat)
    requires BitFlipped(a, b, p) && pos + n <= 8 * |a|
    ensures p < pos || pos + n <= p ==> Field(b, pos, n) == Field(a, pos, n)
    ensures pos <= p < pos + n ==> Field(b, pos, n) != Field(a, pos, n)
    ensures pos <= p < pos + n ==> forall i: nat :: i < n && i != p - pos ==> Bit(Field(b, pos, n), i) == Bit(Field(a, pos, n), i)
  {
    hide Field, Bit;
    if p < pos || pos + n <= p {
      FieldSame(b, a, pos, n);
    } else {
      FieldBit(a, pos, n, p - pos);
      FieldBit(b, pos, n, p - pos);
      forall i: nat | i < n && i != p - pos ensures Bit(Field(b, pos, n), i) == Bit(Field(a, pos, n), i) {
        FieldBit(a, pos, n, i);
        FieldBit(b, pos, n, i);
      }
    }
  }

  /** Two balances differing in bit `i` only have the same checksum exactly when `i % 8` is at or above its width. */
  lemma ChecksumOfFlippedBit(c: ValueCodec, x: nat, y: nat, i: nat)
    requires c.ValidWidths() && i < c.balanceBits
    requires x < Pow2(c.balanceBits) && y < Pow2(c.balanceBits) && x != y
    requires forall t: nat :: t < c.balanceBits && t != i ==> Bit(x, t) == Bit(y, t)
    ensures c.Checksum(x) == c.Checksum(y) <==> i % 8 >= c.checksumBits
  {
    forall t: nat | t >= c.balanceBits ensures Bit(x, t) == Bit(y, t) {
      BitSmall(x, t, c.balanceBits);
      BitSmall(y, t, c.balanceBits);
    }
    if Bit(x, i) == Bit(y, i) { BitsEqual(x, y, c.balanceBits); }
    var a, b := c.BalanceBytes(x), c.BalanceBytes(y);
    TagsFit(c, [], x);
    TagsFit(c, [], y);
    OneBitOneByte(x, y, i, |a|);
    Fnv.OneByteChange(a, b, i / 8, c.checksumBits);
    ModBits(a[i / 8], b[i / 8], Min(c.checksumBits, 8));
    if i % 8 < c.checksumBits {
      assert Bit(a[i / 8], i % 8) != Bit(b[i / 8], i % 8);
    }
  }

  /** Values differing in bit `i` only have little-endian bytes differing in bit `i % 8` of byte `i / 8` only. */
  lemma OneBitOneByte(x: nat, y: nat, i: nat, n: nat)
    requires i / 8 < n && Bit(x, i) != Bit(y, i)
    requires forall t: nat :: t != i ==> Bit(x, t) == Bit(y, t)
    ensures forall j :: 0 <= j < n && j != i / 8 ==> LeBytes(x, n)[j] == LeBytes(y, n)[j]
    ensures forall t: nat :: t < 8 ==> (Bit(LeBytes(x, n)[i / 8], t) == Bit(LeBytes(y, n)[i / 8], t) <==> t != i % 8)
  {
    forall j | 0 <= j < n && j != i / 8 ensures LeBytes(x, n)[j] == LeBytes(y, n)[j] {
      forall t: nat | t < 8 ensures Bit(LeBytes(x, n)[j], t) == Bit(LeBytes(y, n)[j], t) {
        LeBytesBit(x, n, j, t);
        LeBytesBit(y, n, j, t);
      }
      Pow2Values();
      BitsEqual(LeBytes(x, n)[j], LeBytes(y, n)[j], 8);
    }
    forall t: nat | t < 8
      ensures Bit(LeBytes(x, n)[i / 8], t) == Bit(LeBytes(y, n)[i / 8], t) <==> t != i % 8
    {
      LeBytesBit(x, n, i / 8, t);
      LeBytesBit(y, n, i / 8, t);
    }
  }

  /**
   What one flipped bit does to an encoding, for every codec, address, balance and position: the tag and
   checksum fields and the padding are always safe, and a flip in the balance goes unnoticed exactly when
   its position within its byte is at or above the checksum width.
   */
  lemma SingleBitFlip(c: ValueCodec, addr: Address, balance: nat, bytes: seq<u8>, flipped: seq<u8>, p: nat)
    requires c.ValidWidths()
    requires Layout(c, bytes, c.KeyTag(addr), balance, c.Checksum(balance))
    requires BitFlipped(bytes, flipped, p)
    ensures var r := Decoded(c, addr, flipped);
      if p < c.keyTagBits then r == NotFound
      else if p < c.keyTagBits + c.balanceBits then
        if (p - c.keyTagBits) % 8 >= c.checksumBits then r.Found? && r.balance != balance else r == DecodeFailed
      else if p < c.ValueBits() then r == DecodeFailed
      else r == Found(balance)
  {
    FlippedFields(c, bytes, flipped, p);
    if c.keyTagBits <= p < c.keyTagBits + c.balanceBits {
      FlippedBalance(c, bytes, flipped, p);
    }
  }

  lemma FlippedFields(c: ValueCodec, bytes: seq<u8>, flipped: seq<u8>, p: nat)
    requires |bytes| == c.Size() && BitFlipped(bytes, flipped, p)
    ensures TagField(c, flipped) == TagField(c, bytes) <==> p >= c.keyTagBits
    ensures BalanceField(c, flipped) == BalanceField(c, bytes) <==> !(c.keyTagBits <= p < c.keyTagBits + c.balanceBits)
    ensures ChecksumField(c, flipped) == ChecksumField(c, bytes) <==> !(c.keyTagBits + c.balanceBits <= p < c.ValueBits())
  {
    hide BitFlipped, BufBit;
    FlippedField(bytes, flipped, p, 0, c.keyTagBits);
    FlippedField(bytes, flipped, p, c.keyTagBits, c.balanceBits);
    FlippedField(bytes, flipped, p, c.keyTagBits + c.balanceBits, c.checksumBits);
  }

  lemma FlippedBalance(c: ValueCodec, bytes: seq<u8>, flipped: seq<u8>, p: nat)
    requires c.ValidWidths() && |bytes| == c.Size() && BitFlipped(bytes, flipped, p)
    requires c.keyTagBits <= p < c.keyTagBits + c.balanceBits
    ensures c.Checksum(BalanceField(c, flipped)) == c.Checksum(BalanceField(c, bytes)) <==>
      (p - c.keyTagBits) % 8 >= c.checksumBits
  {
    FlippedField(bytes, flipped, p, c.keyTagBits, c.balanceBits);
    ChecksumOfFlippedBit(c, BalanceField(c, bytes), BalanceField(c, flipped), p - c.keyTagBits);
  }

  /** With at least eight checksum bits no single flip ever yields another balance. */
  lemma EightBitsSuffice(c: ValueCodec, addr: Address, balance: nat, bytes: seq<u8>, flipped: seq<u8>, p: nat)
    requires c.ValidWidths() && c.checksumBits >= 8
    requires Layout(c, bytes, c.KeyTag(addr), balance, c.Checksum(balance))
    requires BitFlipped(bytes, flipped, p)
    ensures Decoded(c, addr, flipped).Found? ==> Decoded(c, addr, flipped) == Found(balance)
  {
    SingleBitFlip(c, addr, balance, bytes, flipped, p);
  }

  /** Only the bits of byte `i` of the balance may differ. */
  ghost predicate ByteChanged(c: ValueCodec, a: seq<u8>, b: seq<u8>, i: nat) {
    && |a| == |b| && 8 * i < c.balanceBits
    && forall q: nat :: q < 8 * |a| && !(c.keyTagBits + 8 * i <= q < c.keyTagBits + Min(8 * i + 8, c.balanceBits)) ==> BufBit(b, q) == BufBit(a, q)
  }

  lemma ByteChangedFields(c: ValueCodec, a: seq<u8>, b: seq<u8>, i: nat)
    requires |a| == c.Size() && ByteChanged(c, a, b, i)
    ensures TagField(c, a) == TagField(c, b) && ChecksumField(c, a) == ChecksumField(c, b)
    ensures forall t: nat :: t < 8 * i || 8 * i + 8 <= t ==> Bit(BalanceField(c, a), t) == Bit(BalanceField(c, b), t)
  {
    hide Field, BufBit, Bit;
    FieldSame(a, b, 0, c.keyTagBits);
    FieldSame(a, b, c.keyTagBits + c.balanceBits, c.checksumBits);
    forall t: nat | t < 8 * i || 8 * i + 8 <= t ensures Bit(BalanceField(c, a), t) == Bit(BalanceField(c, b), t) {
      if t < c.balanceBits {
        FieldBit(a, c.keyTagBits, c.balanceBits, t);
        FieldBit(b, c.keyTagBits, c.balanceBits, t);
      } else {
        BitSmall(BalanceField(c, a), t, c.balanceBits);
        BitSmall(BalanceField(c, b), t, c.balanceBits);
      }
    }
  }

  /** Values whose bits differ only within byte `i` have the same other little-endian bytes. */
  lemma OtherBytesSame(x: nat, y: nat, i: nat, n: nat)
    requires i < n && forall t: nat :: t < 8 * i || 8 * i + 8 <= t ==> Bit(x, t) == Bit(y, t)
    ensures forall j :: 0 <= j < n && j != i ==> LeBytes(x, n)[j] == LeBytes(y, n)[j]
    ensures LeBytes(x, n)[i] == LeBytes(y, n)[i] ==> forall t: nat :: Bit(x, t) == Bit(y, t)
  {
    forall j | 0 <= j < n && j != i ensures LeBytes(x, n)[j] == LeBytes(y, n)[j] {
      forall t: nat | t < 8 ensures Bit(LeBytes(x, n)[j], t) == Bit(LeBytes(y, n)[j], t) {
        LeBytesBit(x, n, j, t);
        LeBytesBit(y, n, j, t);
      }
      Pow2Values();
      BitsEqual(LeBytes(x, n)[j], LeBytes(y, n)[j], 8);
    }
    if LeBytes(x, n)[i] == LeBytes(y, n)[i] {
      forall t: nat ensures Bit(x, t) == Bit(y, t) {
        if 8 * i <= t < 8 * i + 8 {
          LeBytesBit(x, n, i, t - 8 * i);
          LeBytesBit(y, n, i, t - 8 * i);
        }
      }
    }
  }

  lemma ChecksumOfChangedByte(c: ValueCodec, x: nat, y: nat, i: nat)
    requires c.ValidWidths() && 8 * i < c.balanceBits && x < Pow2(c.balanceBits) && y < Pow2(c.balanceBits)
    requires forall t: nat :: t < 8 * i || 8 * i + 8 <= t ==> Bit(x, t) == Bit(y, t)
    ensures i < |c.BalanceBytes(x)| == |c.BalanceBytes(y)|
    ensures c.Checksum(x) == c.Checksum(y) <==>
      c.BalanceBytes(x)[i] % Pow2(Min(c.checksumBits, 8)) == c.BalanceBytes(y)[i] % Pow2(Min(c.checksumBits, 8))
    ensures c.BalanceBytes(x)[i] == c.BalanceBytes(y)[i] ==> x == y
  {
    hide Bit, Pow2;
    TagsFit(c, [], x);
    TagsFit(c, [], y);
    var a, b := c.BalanceBytes(x), c.BalanceBytes(y);
    OtherBytesSame(x, y, i, |a|);
    Fnv.OneByteChange(a, b, i, c.checksumBits);
    if a[i] == b[i] {
      BitsEqual(x, y, c.balanceBits);
    }
  }

  /**
   What any change confined to one byte of the balance does to an encoding: it goes unnoticed exactly when the
   low min(checksum_bits, 8) bits of that byte are as they were.
   */
  lemma OneBalanceByte(c: ValueCodec, addr: Address, balance: nat, bytes: seq<u8>, changed: seq<u8>, i: nat)
    requires c.ValidWidths()
    requires Layout(c, bytes, c.KeyTag(addr), balance, c.Checksum(balance))
    requires ByteChanged(c, bytes, changed, i)
    ensures i < |c.BalanceBytes(balance)| == |c.BalanceBytes(BalanceField(c, changed))|
    ensures var other := BalanceField(c, changed);
      var m := Pow2(Min(c.checksumBits, 8));
      Decoded(c, addr, changed) ==
        if c.BalanceBytes(balance)[i] % m == c.BalanceBytes(other)[i] % m then Found(other) else DecodeFailed
    ensures c.checksumBits >= 8 && BalanceField(c, changed) != balance ==> Decoded(c, addr, changed) == DecodeFailed
  {
    hide Field, BufBit, Bit, Pow2, ByteChanged, ZeroFrom;
    ByteInField(c, bytes, changed, i);
    var other := BalanceField(c, changed);
    ByteChangedFields(c, bytes, changed, i);
    ChecksumOfChangedByte(c, balance, other, i);
    WholeByte(c.BalanceBytes(balance)[i], c.BalanceBytes(other)[i]);
  }

  lemma WholeByte(x: u8, y: u8)
    ensures x % Pow2(8) == y % Pow2(8) ==> x == y
  {
    hide Pow2;
    assert Pow2(8) == 256 by { Pow2Values(); }
  }

  lemma ByteInField(c: ValueCodec, a: seq<u8>, b: seq<u8>, i: nat)
    requires ByteChanged(c, a, b, i)
    ensures |a| == |b| && 8 * i < c.balanceBits
  {
  }

  /**
   What one address stores and another looks up: the encoder's refusals, or exactly the stored balance for
   whoever's address hash agrees in the tag's bits, and nothing for anyone else.
   */
  method StoreThenLookUp(c: ValueCodec, owner: Address, asker: Address, balance: nat) returns (r: Result<Lookup, ValueError>)
    requires balance < Pow2(128)
    ensures r == Err(InvalidWidth) <==> !c.ValidWidths()
    ensures r == Err(BalanceOverflow) <==> c.ValidWidths() && balance >= Pow2(c.balanceBits)
    ensures r.Ok? && c.hash(asker) % Pow2(c.keyTagBits) == c.hash(owner) % Pow2(c.keyTagBits) ==> r.value == Found(balance)
    ensures r.Ok? && c.hash(asker) % Pow2(c.keyTagBits) != c.hash(owner) % Pow2(c.keyTagBits) ==> r.value == NotFound
  {
    hide Layout, Pow2;
    var stored := Encode(c, owner, balance);
    if stored.Err? {
      return Err(stored.error);
    }
    RoundTrip(c, owner, asker, balance, stored.value);
    TagsFit(c, asker, balance);
    TagsFit(c, owner, balance);
    var found := Decode(c, asker, stored.value);
    return Ok(found);
  }
}
