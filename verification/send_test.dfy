/**
  * The host-side bench program src/send-test.c, which sets three serialisers
  * side by side on `uint32_t` data: the pointer-walking `AVCLAN_sendbits`,
  * the older `AVCLan_Send_Byte`, and the mask-and-shift `Send4BitWord`,
  * `Send8BitWord` and `Send12BitWord`. Each `printf("1")`/`printf("0")` is
  * one element of the returned `seq<bool>`.
  */
module SendTest {
  import opened Bits

  /** A `uint32_t`. */
  const U32: nat := 0x1_0000_0000
  type Cell = x: nat | x < 0x1_0000_0000

  /** `b << s` on a `uint32_t`. */
  function Lsl(b: Cell, s: nat): Cell
  {
    (b * Pow2(s)) % U32
  }

  /** `b & 0x80`. */
  predicate Bit7(b: Cell)
  {
    (b / 128) % 2 == 1
  }

  /* ---------------- the 32-bit register seen through its low byte ---------------- */

  lemma Pow2ThirtyTwo()
    ensures Pow2(32) == U32
  {
    assert Pow2(8) == 256;
    Pow2Add(8, 8);
    Pow2Add(16, 16);
  }

  /** Reducing modulo 2^32 keeps the low byte. */
  lemma LowByteOfCell(x: nat)
    ensures (x % U32) % 256 == x % 256
  {
    var q := x / U32;
    var r := x % U32;
    assert r == 256 * (r / 256) + r % 256;
    assert x == 256 * (0x100_0000 * q + r / 256) + r % 256;
    DivModUnique(x, 256, 0x100_0000 * q + r / 256, r % 256);
  }

  /** The low byte of `b << s` depends only on the low byte of `b`. */
  lemma LowByteOfShift(b: Cell, s: nat)
    ensures Lsl(b, s) % 256 == ((b % 256) * Pow2(s)) % 256
  {
    LowByteOfProduct(b, Pow2(s));
  }

  lemma LowByteOfProduct(b: nat, m: nat)
    ensures ((b * m) % U32) % 256 == ((b % 256) * m) % 256
  {
    LowByteOfCell(b * m);
    var q := b / 256;
    var r := b % 256;
    assert b * m == (256 * q + r) * m;
    assert (256 * q + r) * m == r * m + 256 * (q * m);
    ModMultiple(r * m, q * m, 256);
  }

  /** `b <<= 1` on the 32-bit register is `b <<= 1` on its low byte. */
  lemma LowByteOfDouble(b: Cell)
    ensures Lsl(b, 1) % 256 == ShiftLeft(b % 256)
  {
    assert Lsl(b, 1) == (2 * b) % U32 by {
      assert Pow2(1) == 2;
    }
    LowByteOfCell(2 * b);
    var q := b / 256;
    var r := b % 256;
    assert 2 * b == 2 * r + 256 * (2 * q);
    ModMultiple(2 * r, 2 * q, 256);
  }

  /** `b & 0x80` on the 32-bit register is bit 7 of its low byte. */
  lemma Bit7OfLowByte(b: Cell)
    ensures Bit7(b) == TopBitSet(b % 256)
  {
    var q := b / 256;
    var r := b % 256;
    assert r == 128 * (r / 128) + r % 128;
    assert b == 128 * (2 * q + r / 128) + r % 128;
    DivModUnique(b, 128, 2 * q + r / 128, r % 128);
    DivModUnique(2 * q + r / 128, 2, q, r / 128);
  }

  /** One turn of a shift loop on the 32-bit register whose low byte holds, at
      its top, the `c` bits of `ToBits(x, k)` still to go. */
  lemma RegisterStep(b: Cell, x: nat, k: nat, c: nat)
    requires 1 <= c <= k && c <= 8
    requires ToBits(b % 256, 8)[..c] == ToBits(x, k)[k - c..]
    ensures Bit7(b) == ToBits(x, k)[k - c]
    ensures ToBits(Lsl(b, 1) % 256, 8)[..c - 1] == ToBits(x, k)[k - c + 1..]
  {
    LowByteOfDouble(b);
    assert Bit7(b) == TopBitSet(b % 256) by {
      Bit7OfLowByte(b);
    }
    ShiftOut(b % 256, x, k, c);
  }

  /** `b <<= 8 - k` (no shift when `k` is 8) brings the low `k` bits of `x` to
      the top of the register's low byte. */
  lemma Aligned(x: Cell, k: nat)
    requires 1 <= k <= 8
    ensures ToBits((if k == 8 then x else Lsl(x, 8 - k)) % 256, 8)[..k] == ToBits(x, k)
  {
    assert Pow2(8) == 256;
    ToBitsMod(x, k, 8);
    if k < 8 {
      LowByteOfShift(x, 8 - k);
      AlignChunk(x % 256, k);
    }
  }

  /* ---------------- AVCLAN_sendbits ---------------- */

  /**
    * `AVCLAN_sendbits(&mem[p], len)`: the low `len & 7` bits of `mem[p]` (all
    * eight when `len` is a multiple of 8), then eight bits of each element
    * below it, most significant first; returns the parity of what went out.
    * A `len` of zero or less sends nothing.
    */
  method SendBits(mem: seq<Cell>, p: nat, len: int) returns (bits: seq<bool>, parity: nat)
    requires p < |mem| && len <= 8 * (p + 1) && len < 0x8000_0000
    ensures len <= 0 ==> bits == []
    ensures len > 0 ==> bits == ChunkBits(mem, p, len)
    ensures parity == Ones(bits) % 2
  {
    var b: Cell := mem[p];
    var ones: nat := 0;
    var lenMod8: nat := 8;
    if len % 8 != 0 {
      lenMod8 := len % 8;
      b := Lsl(b, 8 - lenMod8);
    }
    bits := [];
    if len <= 0 {
      return bits, 0;
    }
    Aligned(mem[p], lenMod8);
    var n: nat := len;
    var q: nat := p;
    while n > 0
      invariant q <= p
      invariant Emitted(mem, p, len, q, n, bits)
      invariant n > 0 ==> lenMod8 == FirstChunk(n) && ToBits(b % 256, 8)[..lenMod8] == ToBits(mem[q], lenMod8)
      invariant ones == Ones(bits)
      decreases n
    {
      q, n, b, bits, ones := SendChunk(mem, p, len, q, n, b, lenMod8, bits, ones);
      lenMod8 := 8;
    }
    parity := ones % 2;
  }

  /** One pass of the outer loop: `len -= len_mod8`, the top `len_mod8` bits
      of the register go out, and `b = *--byte` reloads it. */
  method SendChunk(mem: seq<Cell>, p: nat, len: nat, q: nat, n: nat, b: Cell, k: nat,
                   bits: seq<bool>, ones: nat)
    returns (q': nat, n': nat, b': Cell, bits': seq<bool>, ones': nat)
    requires p < |mem| && len <= 8 * (p + 1) && q <= p && n > 0
    requires Emitted(mem, p, len, q, n, bits) && k == FirstChunk(n)
    requires ToBits(b % 256, 8)[..k] == ToBits(mem[q], k) && ones == Ones(bits)
    ensures q' <= p && n' < n && Emitted(mem, p, len, q', n', bits') && ones' == Ones(bits')
    ensures n' > 0 ==> FirstChunk(n') == 8 && ToBits(b' % 256, 8)[..8] == ToBits(mem[q'], 8)
  {
    ChunkAdvance(mem, p, len, q, n, bits);
    n' := n - k;
    bits', ones' := ShiftOutCell(b, mem[q], k, bits, ones);
    q', b' := q, b;
    if n' > 0 {
      q' := q - 1;
      b' := mem[q'];
      Aligned(b', 8);
    }
  }

  /** The inner `for (; len_mod8 > 0; len_mod8--)` loop: `b & 0x80` goes out
      and `b <<= 1`, `k` times, counting the ones. */
  method ShiftOutCell(b0: Cell, x: nat, k: nat, before: seq<bool>, ones0: nat)
    returns (bits: seq<bool>, ones: nat)
    requires 1 <= k <= 8 && ToBits(b0 % 256, 8)[..k] == ToBits(x, k)
    requires ones0 == Ones(before)
    ensures bits == before + ToBits(x, k) && ones == Ones(bits)
  {
    var b := b0;
    var c := k;
    bits := before;
    ones := ones0;
    while c > 0
      invariant c <= k
      invariant ToBits(b % 256, 8)[..c] == ToBits(x, k)[k - c..]
      invariant bits == before + ToBits(x, k)[..k - c]
      invariant ones == Ones(bits)
    {
      RegisterStep(b, x, k, c);
      var bit := Bit7(b);
      OnesSnoc(bits, bit);
      if bit {
        ones := ones + 1;
      }
      PrefixSnoc(before, ToBits(x, k), k - c);
      bits := bits + [bit];
      b := Lsl(b, 1);
      c := c - 1;
    }
  }

  /* ---------------- AVCLan_Send_Byte ---------------- */

  /**
    * `AVCLan_Send_Byte(x, len)`: the register is `x << (8 - len)` (or `x`
    * itself when `len` is 8); its bit 7 goes out and the register shifts
    * until `len` counts down to zero, and the result is always 1.
    */
  method SendByte(x: Cell, len: nat) returns (bits: seq<bool>, result: nat)
    requires 1 <= len <= 8
    ensures bits == ToBits(x, len)
    ensures result == 1
  {
    var b: Cell := if len == 8 then x else Lsl(x, 8 - len);
    Aligned(x, len);
    var c := len;
    bits := [];
    while true
      invariant 1 <= c <= len
      invariant ToBits(b % 256, 8)[..c] == ToBits(x, len)[len - c..]
      invariant bits == ToBits(x, len)[..len - c]
      decreases c
    {
      RegisterStep(b, x, len, c);
      var bit := Bit7(b);
      PrefixSnoc([], ToBits(x, len), len - c);
      bits := bits + [bit];
      c := c - 1;
      if c == 0 {
        break;
      }
      b := Lsl(b, 1);
    }
    return bits, 1;
  }

  /* ---------------- Send4BitWord, Send8BitWord, Send12BitWord ---------------- */

  /** `Send4BitWord`: mask 0x8, four shifts of a `uint32_t`. */
  method Send4BitWord(data: Cell) returns (bits: seq<bool>)
    ensures bits == ToBits(data, 4)
  {
    Pow2ThirtyTwo();
    var parity;
    bits, parity := SendWord(data, 4, 32);
  }

  /** `Send8BitWord`: mask 0x80, eight shifts of a `uint32_t`. */
  method Send8BitWord(data: Cell) returns (bits: seq<bool>)
    ensures bits == ToBits(data, 8)
  {
    Pow2ThirtyTwo();
    var parity;
    bits, parity := SendWord(data, 8, 32);
  }

  /** `Send12BitWord`: mask 0x800, twelve shifts of a `uint32_t`. */
  method Send12BitWord(data: Cell) returns (bits: seq<bool>)
    ensures bits == ToBits(data, 12)
  {
    Pow2ThirtyTwo();
    var parity;
    bits, parity := SendWord(data, 12, 32);
  }

  /* ---------------- the comparisons in main ---------------- */

  /** `uint32_t n[] = {0xaa, 0x61, 0x03, 0xff}`. */
  const Bench: seq<Cell> := [0xaa, 0x61, 0x03, 0xff]

  /** A word whose low byte is `lo` is sent, `n - 8` high bits first, as
      its high part followed by `lo`. */
  lemma WordSplit(lo: nat, hi: nat, n: nat)
    requires lo < 256 && 8 <= n
    ensures ToBits(hi, n - 8) + ToBits(lo, 8) == ToBits(lo + 256 * hi, n)
  {
    var v := lo + 256 * hi;
    ToBitsSplit(v, n - 8, 8);
    assert Pow2(8) == 256;
    DivModUnique(v, 256, hi, lo);
    ToBitsMod(v, 8, 8);
  }

  /** Two stored elements walked down from the upper one, 9 to 16 bits: the
      low bits of the word `mem[p] * 256 + mem[p - 1]`. */
  lemma ChunkBitsPair(mem: seq<nat>, p: nat, n: nat)
    requires 1 <= p < |mem| && 8 < n <= 16 && mem[p - 1] < 256
    ensures ChunkBits(mem, p, n) == ToBits(mem[p - 1] + 256 * mem[p], n)
  {
    assert ChunkBits(mem, p, n) == ToBits(mem[p], n - 8) + ToBits(mem[p - 1], 8) by {
      ChunkBitsHead(mem, p, n);
      ChunkBitsHead(mem, p - 1, 8);
    }
    WordSplit(mem[p - 1], mem[p], n);
  }

  /** Two words that differ only in bit 0 send the same bits but the last. */
  lemma LastBitDiffers(v: nat, w: nat, n: nat)
    requires n > 0 && v / 2 == w / 2 && v % 2 != w % 2
    ensures ToBits(v, n)[..n - 1] == ToBits(w, n)[..n - 1]
    ensures ToBits(v, n)[n - 1] != ToBits(w, n)[n - 1]
  {
    ToBitsLast(v, n);
    ToBitsLast(w, n);
  }

  /**
    * The four-bit section of `main`: `AVCLAN_sendbits(&n3, 4)`,
    * `AVCLan_Send_Byte(n3, 4)` and `Send4BitWord(n3)` with `n3 = 0x03` print
    * the same four bits, `0011`.
    */
  method FourBits() returns (walked: seq<bool>, byByte: seq<bool>, byWord: seq<bool>)
    ensures walked == byByte == byWord == ToBits(3, 4)
  {
    var n3: Cell := 0x03;
    var parity, result;
    walked, parity := SendBits([n3], 0, 4);
    byByte, result := SendByte(n3, 4);
    byWord := Send4BitWord(n3);
  }

  /** `AVCLAN_sendbits(&n[2], len)` for 9 to 16 bits: the low `len` bits of
      the word `n[2]`, `n[1]` form. */
  method SendAcross(n: seq<Cell>, len: nat) returns (bits: seq<bool>)
    requires |n| == 4 && n[1] < 256 && 8 < len <= 16
    ensures bits == ToBits(n[1] as nat + 256 * (n[2] as nat), len)
  {
    var parity;
    bits, parity := SendBits(n, 2, len);
    ChunkBitsPair(n, 2, len);
  }

  /**
    * The eight-bit section of `main` (labelled 0x63): `AVCLAN_sendbits(&n[1],
    * 7)` and `(&n[1], 8)` print the low bits of `n[1] = 0x61`, as
    * `Send8BitWord(n[1])` does; `(&n[2], 9)` to `(&n[2], 12)` print the low
    * 9 to 12 bits of 0x361, the word `n[2]`, `n[1]` form.
    */
  method EightBits() returns (s7: seq<bool>, s8: seq<bool>, s9: seq<bool>, s10: seq<bool>,
                               s11: seq<bool>, s12: seq<bool>, byWord: seq<bool>)
    ensures s7 == ToBits(0x61, 7) && s8 == byWord == ToBits(0x61, 8)
    ensures s9 == ToBits(0x361, 9) && s10 == ToBits(0x361, 10)
    ensures s11 == ToBits(0x361, 11) && s12 == ToBits(0x361, 12)
  {
    var n := Bench;
    var parity;
    s7, parity := SendBits(n, 1, 7);
    s8, parity := SendBits(n, 1, 8);
    s9 := SendAcross(n, 9);
    s10 := SendAcross(n, 10);
    s11 := SendAcross(n, 11);
    s12 := SendAcross(n, 12);
    byWord := Send8BitWord(n[1]);
  }

  /**
    * The twelve-bit section of `main` (labelled 0x360): `AVCLAN_sendbits(&n[2],
    * 12)` and `AVCLan_Send_Byte(n[2], 4); AVCLan_Send_Byte(n[1], 8)` print
    * the same twelve bits, those of 0x361; `Send12BitWord(0x360)` agrees with
    * them on the first eleven and differs in the last.
    */
  method TwelveBits() returns (walked: seq<bool>, byBytes: seq<bool>, byWord: seq<bool>)
    ensures walked == byBytes == ToBits(0x361, 12)
    ensures byWord == ToBits(0x360, 12)
    ensures walked[..11] == byWord[..11] && walked[11] != byWord[11]
  {
    var n := Bench;
    var id := 2;
    var parity, result;
    walked, parity := SendBits(n, id, 12);
    ChunkBitsPair(n, 2, 12);
    var high, low;
    high, result := SendByte(n[2], 4);
    low, result := SendByte(n[1], 8);
    byBytes := high + low;
    WordSplit(n[1], n[2], 12);
    byWord := Send12BitWord(0x360);
    LastBitDiffers(0x361, 0x360, 12);
  }
}
