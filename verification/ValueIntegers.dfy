/** An encoded value as one little-endian integer: `tag + 2^t * balance + 2^(t + b) * checksum`. */
module ValueIntegers {
  import opened Words
  import opened Value
  import Fnv

  lemma DivDiv(x: nat, a: nat, b: nat)
    requires a > 0 && b > 0
    ensures a * b > 0 && x / a / b == x / (a * b)
  {
    var q, r := x / a, x % a;
    var p, s := q / b, q % b;
    assert x == q * a + r && q == p * b + s;
    assert x == p * (a * b) + (s * a + r) by {
      assert (p * b + s) * a == p * (a * b) + s * a;
    }
    MulMonotone(s + 1, b, a);
    assert (s + 1) * a == s * a + a;
    MulAtLeast(a, b);
    assert a * b == b * a;
    ModUnique(x, p, a * b, s * a + r);
  }

  lemma {:induction false} BitShifted(x: nat, pos: nat, y: nat, i: nat)
    requires y == x / Pow2(pos)
    ensures Bit(y, i) == Bit(x, pos + i)
  {
    if pos > 0 {
      DivDiv(x, 2, Pow2(pos - 1));
      BitShifted(x / 2, pos - 1, y, i);
    }
  }

  lemma BufferBit(buf: seq<u8>, p: nat)
    requires p < 8 * |buf|
    ensures BufBit(buf, p) == Bit(FromLe(buf), p)
  {
    hide Bit, FromLe, LeBytes, Pow2;
    FromLeRoundTrip(buf);
    LeBytesBit(FromLe(buf), |buf|, p / 8, p % 8);
  }

  lemma LowBits(x: nat, n: nat, i: nat)
    requires i < n
    ensures Bit(x % Pow2(n), i) == Bit(x, i)
  {
    hide Bit, Pow2;
    ModUnique(x % Pow2(n), 0, Pow2(n), x % Pow2(n));
    ModBits(x % Pow2(n), x, n);
  }

  /** A field is a digit of the buffer read as one little-endian number. */
  lemma FieldIsDigit(buf: seq<u8>, pos: nat, n: nat)
    requires pos + n <= 8 * |buf|
    ensures Field(buf, pos, n) == FromLe(buf) / Pow2(pos) % Pow2(n)
  {
    hide Bit, Pow2, FromLe, Field, BufBit;
    var x := FromLe(buf) / Pow2(pos);
    var digit := x % Pow2(n);
    forall i: nat | i < n ensures BufBit(buf, pos + i) == Bit(digit, i) {
      DigitBit(buf, pos, x, n, digit, i);
    }
    FieldIs(buf, pos, n, digit);
  }

  lemma DigitBit(buf: seq<u8>, pos: nat, x: nat, n: nat, digit: nat, i: nat)
    requires pos + n <= 8 * |buf| && i < n && x == FromLe(buf) / Pow2(pos) && digit == x % Pow2(n)
    ensures BufBit(buf, pos + i) == Bit(digit, i)
  {
    hide Bit, Pow2, FromLe, BufBit;
    BufferBit(buf, pos + i);
    BitShifted(FromLe(buf), pos, x, i);
    LowBits(x, n, i);
  }

  lemma ZeroAbove(buf: seq<u8>, n: nat)
    requires n <= 8 * |buf| && ZeroFrom(buf, n)
    ensures FromLe(buf) < Pow2(n)
  {
    hide Bit, Pow2, FromLe, BufBit;
    var x := FromLe(buf);
    FromLeRoundTrip(buf);
    Pow2Monotone(n, 8 * |buf|);
    forall i: nat | i < 8 * |buf| ensures Bit(x, i) == Bit(x % Pow2(n), i) {
      if i < n {
        LowBits(x, n, i);
      } else {
        BufferBit(buf, i);
        BitSmall(x % Pow2(n), i, n);
      }
    }
    BitsEqual(x, x % Pow2(n), 8 * |buf|);
  }

  /** A number from its three digits. */
  lemma ThreeDigits(x: nat, t: nat, b: nat, s: nat, low: nat, mid: nat, top: nat)
    requires x < Pow2(t + b + s)
    requires low == x % Pow2(t) && mid == x / Pow2(t) % Pow2(b) && top == x / Pow2(t + b) % Pow2(s)
    ensures x == low + Pow2(t) * mid + Pow2(t + b) * top
  {
    hide Pow2;
    var m, n := Pow2(t), Pow2(b);
    var y := x / m;
    Pow2Add(t, b);
    Pow2Add(t + b, s);
    DivDiv(x, m, n);
    var z := x / (m * n);
    TopDigit(x, m * n, Pow2(s));
    assert x == m * y + x % m && y == n * z + y % n;
    assert m * (n * z + y % n) == (m * n) * z + m * (y % n);
  }

  lemma TopDigit(x: nat, m: nat, s: nat)
    requires m > 0 && s > 0 && x < m * s
    ensures x / m % s == x / m
  {
    var z := x / m;
    assert x == z * m + x % m;
    if z >= s {
      MulMonotone(s, z, m);
    } else {
      ModUnique(z, 0, s, z);
    }
  }

  /** What the encoder writes, as a number; nothing but the three fields. */
  lemma EncodingIsInteger(c: ValueCodec, addr: Address, balance: nat, bytes: seq<u8>)
    requires c.ValidWidths() && Layout(c, bytes, c.KeyTag(addr), balance, c.Checksum(balance))
    ensures |bytes| == (c.keyTagBits + c.balanceBits + c.checksumBits + 7) / 8
    ensures FromLe(bytes) == c.hash(addr) % Pow2(c.keyTagBits) + Pow2(c.keyTagBits) * balance
      + Pow2(c.keyTagBits + c.balanceBits) * (Fnv.Hash(LeBytes(balance, (c.balanceBits + 7) / 8)) % Pow2(c.checksumBits))
  {
    hide Pow2, FromLe, Layout, LeBytes, Fnv.Hash;
    EncodedDigits(c, addr, balance, bytes);
    ThreeDigits(FromLe(bytes), c.keyTagBits, c.balanceBits, c.checksumBits, c.hash(addr) % Pow2(c.keyTagBits), balance,
                Fnv.Hash(LeBytes(balance, (c.balanceBits + 7) / 8)) % Pow2(c.checksumBits));
  }

  lemma EncodedDigits(c: ValueCodec, addr: Address, balance: nat, bytes: seq<u8>)
    requires c.ValidWidths() && Layout(c, bytes, c.KeyTag(addr), balance, c.Checksum(balance))
    ensures |bytes| == (c.keyTagBits + c.balanceBits + c.checksumBits + 7) / 8
    ensures FromLe(bytes) < Pow2(c.keyTagBits + c.balanceBits + c.checksumBits)
    ensures c.hash(addr) % Pow2(c.keyTagBits) == FromLe(bytes) % Pow2(c.keyTagBits)
    ensures balance == FromLe(bytes) / Pow2(c.keyTagBits) % Pow2(c.balanceBits)
    ensures Fnv.Hash(LeBytes(balance, (c.balanceBits + 7) / 8)) % Pow2(c.checksumBits)
      == FromLe(bytes) / Pow2(c.keyTagBits + c.balanceBits) % Pow2(c.checksumBits)
  {
    hide Pow2, FromLe, ZeroFrom, LeBytes, TagField, BalanceField, ChecksumField, Fnv.Hash;
    TagsFit(c, addr, balance);
    Digits(c, bytes);
    ZeroAbove(bytes, c.ValueBits());
  }

  lemma Digits(c: ValueCodec, bytes: seq<u8>)
    requires |bytes| == c.Size()
    ensures TagField(c, bytes) == FromLe(bytes) % Pow2(c.keyTagBits)
    ensures BalanceField(c, bytes) == FromLe(bytes) / Pow2(c.keyTagBits) % Pow2(c.balanceBits)
    ensures ChecksumField(c, bytes) == FromLe(bytes) / Pow2(c.keyTagBits + c.balanceBits) % Pow2(c.checksumBits)
  {
    hide Field, FromLe;
    FieldIsDigit(bytes, 0, c.keyTagBits);
    FieldIsDigit(bytes, c.keyTagBits, c.balanceBits);
    FieldIsDigit(bytes, c.keyTagBits + c.balanceBits, c.checksumBits);
    assert Pow2(0) == 1;
  }

  /** The digits of a value's bytes a decoder looks at. */
  ghost predicate HasTag(c: ValueCodec, addr: Address, bytes: seq<u8>) {
    FromLe(bytes) % Pow2(c.keyTagBits) == c.hash(addr) % Pow2(c.keyTagBits)
  }

  ghost predicate HasChecksum(c: ValueCodec, bytes: seq<u8>, balance: nat) {
    FromLe(bytes) / Pow2(c.keyTagBits + c.balanceBits) % Pow2(c.checksumBits)
      == Fnv.Hash(LeBytes(balance, (c.balanceBits + 7) / 8)) % Pow2(c.checksumBits)
  }

  /** What the decoder makes of any bytes, each outcome exactly. */
  lemma DecodedMeaning(c: ValueCodec, addr: Address, bytes: seq<u8>)
    ensures var r := Decoded(c, addr, bytes);
      var sound := c.ValidWidths() && |bytes| == (c.keyTagBits + c.balanceBits + c.checksumBits + 7) / 8;
      var balance := FromLe(bytes) / Pow2(c.keyTagBits) % Pow2(c.balanceBits);
      && (r == NotFound <==> sound && !HasTag(c, addr, bytes))
      && (r.Found? <==> sound && HasTag(c, addr, bytes) && HasChecksum(c, bytes, balance))
      && (r.Found? ==> r.balance == balance)
  {
    hide Field, FromLe, Pow2, LeBytes, TagField, BalanceField, ChecksumField, HasTag, HasChecksum;
    if c.ValidWidths() && |bytes| == c.Size() {
      Digits(c, bytes);
      TagAndSum(c, addr, bytes);
    }
  }

  lemma TagAndSum(c: ValueCodec, addr: Address, bytes: seq<u8>)
    requires c.ValidWidths() && |bytes| == c.Size()
    ensures HasTag(c, addr, bytes) <==> TagField(c, bytes) == c.KeyTag(addr)
    ensures HasChecksum(c, bytes, BalanceField(c, bytes)) <==> ChecksumField(c, bytes) == c.Checksum(BalanceField(c, bytes))
  {
    hide Field, FromLe, Pow2, LeBytes, TagField, BalanceField, ChecksumField, Fnv.Hash;
    Digits(c, bytes);
    TagsFit(c, addr, BalanceField(c, bytes));
  }
}
