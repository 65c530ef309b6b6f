/**
  * Bit-level vocabulary shared by the three AVC-LAN driver models: bytes and
  * 16-bit words as bounded naturals, powers of two, most-significant-first
  * bit strings and their (even) parity.
  *
  * The C sources manipulate `uint8_t`/`uint16_t` registers with shifts and
  * masks; the models write those operations arithmetically (`x << 1` on a
  * byte is `(2 * x) % 256`, `x & 0x80` tests `(x / 128) % 2 == 1`) and reason
  * about the bits they produce through `ToBits` and `FromBits`.
  */
module Bits {

  type Byte = b: nat | b < 256
  type Word = w: nat | w < 0x1_0000

  function Pow2(n: nat): (r: nat)
    ensures r >= 1
  {
    if n == 0 then 1 else 2 * Pow2(n - 1)
  }

  /** The low `n` bits of `v`, most significant first. */
  function ToBits(v: nat, n: nat): (r: seq<bool>)
    ensures |r| == n
  {
    if n == 0 then [] else ToBits(v / 2, n - 1) + [v % 2 == 1]
  }

  /** The number a most-significant-first bit string denotes. */
  function FromBits(bits: seq<bool>): (r: nat)
    ensures r < Pow2(|bits|)
  {
    if |bits| == 0 then 0
    else 2 * FromBits(bits[..|bits| - 1]) + (if bits[|bits| - 1] then 1 else 0)
  }

  /** Number of `1` bits in a bit string. */
  function Ones(bits: seq<bool>): (r: nat)
    ensures r <= |bits|
  {
    if |bits| == 0 then 0
    else Ones(bits[..|bits| - 1]) + (if bits[|bits| - 1] then 1 else 0)
  }

  /** The even-parity bit AVC-LAN appends to a field: `1` iff the field holds
      an odd number of ones. */
  function ParityBit(bits: seq<bool>): bool
  {
    Ones(bits) % 2 == 1
  }

  /** A field followed by its even-parity bit. */
  function WithParity(bits: seq<bool>): (r: seq<bool>)
    ensures |r| == |bits| + 1 && r[..|bits|] == bits
  {
    bits + [ParityBit(bits)]
  }

  function Zeros(n: nat): (r: seq<bool>)
    ensures |r| == n && forall i :: 0 <= i < n ==> !r[i]
  {
    seq(n, _ => false)
  }

  /** `v >> m`: the value without its low `m` bits. */
  function Shr(v: nat, m: nat): (r: nat)
    ensures r == v / Pow2(m)
  {
    DivNonNegative(v, Pow2(m));
    v / Pow2(m)
  }

  /** `b << 1` on an 8-bit register. */
  function ShiftLeft(b: Byte): Byte
  {
    (2 * b) % 256
  }

  /** `b << (8 - k)` on an 8-bit register. */
  function AlignLeft(b: Byte, k: nat): Byte
    requires 1 <= k < 8
  {
    (b * Pow2(8 - k)) % 256
  }

  /** `b++` on a `uint8_t`: wraps from 255 to 0. */
  function Increment(b: Byte): (r: Byte)
    ensures b < 255 ==> r == b + 1
    ensures b == 255 ==> r == 0
  {
    (b as int + 1) % 256
  }

  /** `b & 0x80`: the register's top bit. */
  predicate TopBitSet(b: Byte)
  {
    (b / 128) % 2 == 1
  }

  /* ---------------- arithmetic helpers ---------------- */

  lemma {:induction false} MulAtLeast(d: int, k: int)
    requires d > 0 && k >= 1
    ensures d * k >= d
  {
    if k > 1 {
      MulAtLeast(d, k - 1);
      assert d * k == d * (k - 1) + d;
    }
  }

  lemma DivModUnique(v: int, d: int, q: int, r: int)
    requires d > 0 && 0 <= r < d && v == d * q + r
    ensures v / d == q && v % d == r
  {
    var q' := v / d;
    var r' := v % d;
    assert d * q' + r' == d * q + r;
    if q > q' {
      MulAtLeast(d, q - q');
      assert false;
    } else if q < q' {
      MulAtLeast(d, q' - q);
      assert false;
    }
  }

  lemma DivNonNegative(v: nat, d: nat)
    requires d > 0
    ensures 0 <= v / d <= v
  {
    var q := v / d;
    assert v == d * q + v % d;
    if q < 0 {
      MulAtLeast(d, -q);
      assert false;
    } else if q > v {
      MulAtLeast(q, d);
      assert false;
    }
  }

  lemma MulTwice(x: int, y: int)
    ensures 2 * (x * y) == x * (2 * y)
  {
  }

  lemma Pow2Add(a: nat, b: nat)
    ensures Pow2(a + b) == Pow2(a) * Pow2(b)
    decreases a
  {
    if a > 0 {
      Pow2Add(a - 1, b);
      assert Pow2(a + b) == 2 * (Pow2(a - 1) * Pow2(b));
    }
  }

  /** Halving and then dividing by `p` is dividing by `2 * p`. */
  lemma HalfDiv(v: nat, p: nat)
    requires p > 0
    ensures (v / 2) / p == v / (2 * p)
  {
    var q1 := v / 2;
    var r1 := v % 2;
    var q2 := q1 / p;
    var r2 := q1 % p;
    assert q1 == p * q2 + r2;
    assert v == 2 * q1 + r1;
    assert 2 * (p * q2) == (2 * p) * q2;
    assert v == (2 * p) * q2 + (2 * r2 + r1);
    DivModUnique(v, 2 * p, q2, 2 * r2 + r1);
  }

  lemma ModHalf(v: nat, q: nat)
    requires q > 0
    ensures (v % (2 * q)) / 2 == (v / 2) % q
    ensures (v % (2 * q)) % 2 == v % 2
  {
    var a := v / (2 * q);
    var r := v % (2 * q);
    assert v == (2 * q) * a + r;
    assert (2 * q) * a == 2 * (q * a);
    assert v == 2 * (q * a + r / 2) + r % 2;
    DivModUnique(v, 2, q * a + r / 2, r % 2);
    DivModUnique(v / 2, q, a, r / 2);
  }

  /** Adding a multiple of the modulus does not change a residue. */
  lemma ModMultiple(x: nat, k: nat, m: nat)
    requires m > 0
    ensures (x + m * k) % m == x % m
  {
    DivModUnique(x + m * k, m, x / m + k, x % m);
  }

  /** A doubled value stays even after reduction modulo 256. */
  lemma DoubleModEven(x: nat)
    ensures ((2 * x) % 256) % 2 == 0
  {
    var q := (2 * x) / 256;
    DivModUnique(2 * x, 256, q, (2 * x) % 256);
    DivModUnique((2 * x) % 256, 2, x - 128 * q, 0);
  }

  /** Reducing modulo 256 keeps the lowest bit. */
  lemma ModParity(x: nat)
    ensures (x % 256) % 2 == x % 2
  {
    var q := x / 256;
    var r := x % 256;
    DivModUnique(x, 256, q, r);
    DivModUnique(x, 2, 128 * q + r / 2, r % 2);
  }

  /** Adding a small amount commutes with reduction modulo 256. */
  lemma ModAddSmall(x: nat, d: nat)
    requires d <= 1
    ensures (x % 256 + d) % 256 == (x + d) % 256
  {
    ModMultiple(x % 256 + d, x / 256, 256);
  }

  /** Doubling commutes with reduction modulo 256. */
  lemma ModDouble(x: nat)
    ensures (2 * (x % 256)) % 256 == (2 * x) % 256
  {
    ModMultiple(2 * (x % 256), 2 * (x / 256), 256);
  }

  /** Parities add modulo 2. */
  lemma ParityAdd(a: nat, b: nat)
    ensures (a % 2 + b % 2) % 2 == (a + b) % 2
  {
    ModMultiple(a % 2 + b % 2, a / 2 + b / 2, 2);
  }

  /* ---------------- bit-string lemmas ---------------- */

  /** Reading back the bits of `v` yields `v` reduced to `n` bits. */
  lemma {:induction false} FromToBits(v: nat, n: nat)
    ensures FromBits(ToBits(v, n)) == v % Pow2(n)
  {
    if n > 0 {
      var q := Pow2(n - 1);
      var t := ToBits(v, n);
      var low := ToBits(v / 2, n - 1);
      assert t == low + [v % 2 == 1];
      assert t[..n - 1] == low;
      assert FromBits(t) == 2 * FromBits(low) + v % 2;
      FromToBits(v / 2, n - 1);
      ModHalf(v, q);
      var r := v % (2 * q);
      assert r == 2 * (r / 2) + r % 2;
    }
  }

  /** Writing out the number a bit string denotes gives back the string. */
  lemma {:induction false} ToFromBits(bits: seq<bool>)
    ensures ToBits(FromBits(bits), |bits|) == bits
  {
    if |bits| > 0 {
      var n := |bits|;
      var init := bits[..n - 1];
      var last := bits[n - 1];
      var v := FromBits(bits);
      assert v == 2 * FromBits(init) + (if last then 1 else 0);
      DivModUnique(v, 2, FromBits(init), if last then 1 else 0);
      ToFromBits(init);
      assert ToBits(v, n) == ToBits(FromBits(init), n - 1) + [last];
      assert bits == init + [last];
    }
  }

  /** Only the low `n` bits of a value matter to `ToBits(_, n)`. */
  lemma {:induction false} ToBitsMod(v: nat, n: nat, m: nat)
    requires n <= m
    ensures ToBits(v % Pow2(m), n) == ToBits(v, n)
  {
    if n > 0 {
      ModHalf(v, Pow2(m - 1));
      ToBitsMod(v / 2, n - 1, m - 1);
    }
  }

  /** Splitting an `n + m` bit field into its high `n` and low `m` bits. */
  lemma {:induction false} ToBitsSplit(v: nat, n: nat, m: nat)
    ensures ToBits(v, n + m) == ToBits(Shr(v, m), n) + ToBits(v, m)
  {
    if m > 0 {
      ToBitsSplit(v / 2, n, m - 1);
      HalfDiv(v, Pow2(m - 1));
      assert Pow2(m) == 2 * Pow2(m - 1);
      var hi := ToBits(Shr(v, m), n);
      calc {
        ToBits(v, n + m);
        ToBits(v / 2, n + (m - 1)) + [v % 2 == 1];
        (hi + ToBits(v / 2, m - 1)) + [v % 2 == 1];
        hi + (ToBits(v / 2, m - 1) + [v % 2 == 1]);
        hi + ToBits(v, m);
      }
    } else {
      assert ToBits(v, m) == [];
      assert v / Pow2(m) == v;
    }
  }

  /** The first bit emitted for an `n + 1` bit field is bit `n` of the value. */
  lemma ToBitsHead(v: nat, n: nat)
    ensures ToBits(v, n + 1) == [Shr(v, n) % 2 == 1] + ToBits(v, n)
  {
    ToBitsSplit(v, 1, n);
  }

  /** Doubling a value shifts its bit string left by one place. */
  lemma ToBitsDouble(v: nat, n: nat)
    ensures ToBits(2 * v, n + 1) == ToBits(v, n) + [false]
  {
  }

  lemma {:induction false} FromBitsAppend(a: seq<bool>, b: seq<bool>)
    ensures FromBits(a + b) == FromBits(a) * Pow2(|b|) + FromBits(b)
  {
    if |b| > 0 {
      var ab := a + b;
      var b' := b[..|b| - 1];
      assert ab[..|ab| - 1] == a + b';
      FromBitsAppend(a, b');
      var last := if b[|b| - 1] then 1 else 0;
      calc {
        FromBits(a + b);
        2 * FromBits(a + b') + last;
        2 * (FromBits(a) * Pow2(|b'|) + FromBits(b')) + last;
        { MulTwice(FromBits(a), Pow2(|b'|)); }
        FromBits(a) * Pow2(|b|) + (2 * FromBits(b') + last);
      }
    } else {
      assert a + b == a;
    }
  }

  /** The parity of two fields read back to back is the parity of their
      concatenation. */
  lemma ParityAppend(a: seq<bool>, b: seq<bool>, pa: nat, pb: nat)
    requires pa == Ones(a) % 2 && pb == Ones(b) % 2
    ensures (pa + pb) % 2 == Ones(a + b) % 2
  {
    OnesAppend(a, b);
    ParityAdd(Ones(a), Ones(b));
  }

  lemma {:induction false} OnesAppend(a: seq<bool>, b: seq<bool>)
    ensures Ones(a + b) == Ones(a) + Ones(b)
  {
    if |b| > 0 {
      var ab := a + b;
      assert ab[..|ab| - 1] == a + b[..|b| - 1];
      OnesAppend(a, b[..|b| - 1]);
    } else {
      assert a + b == a;
    }
  }

  /** A field followed by its parity bit always carries an even number of ones. */
  lemma ParityBitEvens(bits: seq<bool>)
    ensures Ones(bits + [ParityBit(bits)]) % 2 == 0
  {
    OnesAppend(bits, [ParityBit(bits)]);
    assert [ParityBit(bits)][..0] == [];
  }

  /** Multiplying by `2^m` appends `m` zero bits. */
  lemma {:induction false} ToBitsShiftUp(x: nat, n: nat, m: nat)
    ensures ToBits(x * Pow2(m), n + m) == ToBits(x, n) + Zeros(m)
  {
    if m > 0 {
      ToBitsShiftUp(x, n, m - 1);
      assert x * Pow2(m) == 2 * (x * Pow2(m - 1)) by {
        MulTwice(x, Pow2(m - 1));
      }
      ToBitsDouble(x * Pow2(m - 1), n + m - 1);
      assert Zeros(m) == Zeros(m - 1) + [false];
    } else {
      assert ToBits(x, n) + Zeros(0) == ToBits(x, n);
    }
  }

  /** One step of a shift-register serialiser of width `w`: the bit it tests
      (`b & (1 << (w - 1))`) is the first bit of the register, and shifting the
      register left moves the remaining bits up by one place. */
  lemma RegisterShift(b: nat, w: nat)
    requires w >= 1
    ensures ToBits(b, w)[0] == (Shr(b, w - 1) % 2 == 1)
    ensures ToBits(2 * b, w)[..w - 1] == ToBits(b, w)[1..]
  {
    ToBitsHead(b, w - 1);
    ToBitsDouble(b, w - 1);
  }

  /** The number of ones among the low `n` bits of `v`, counted arithmetically. */
  function PopCount(v: nat, n: nat): nat
  {
    if n == 0 then 0 else v % 2 + PopCount(v / 2, n - 1)
  }

  lemma PopCountZero(n: nat)
    ensures PopCount(0, n) == 0
  {
  }

  lemma {:induction false} OnesToBits(v: nat, n: nat)
    ensures Ones(ToBits(v, n)) == PopCount(v, n)
  {
    if n > 0 {
      ToBitsLast(v, n);
      OnesToBits(v / 2, n - 1);
      LowBit(v);
    }
  }

  /** The last bit `ToBits` writes is the value's lowest bit. */
  lemma ToBitsLast(v: nat, n: nat)
    requires n > 0
    ensures ToBits(v, n)[..n - 1] == ToBits(v / 2, n - 1)
    ensures ToBits(v, n)[n - 1] == (v % 2 == 1)
  {
  }

  /** One step of an 8-bit output register that holds the bits of `x` still
      to be sent at its top: `b & 0x80` is the next bit, and `b <<= 1` brings
      the following one up. */
  lemma ShiftOut(b: Byte, x: nat, k: nat, c: nat)
    requires 1 <= c <= k && c <= 8
    requires ToBits(b, 8)[..c] == ToBits(x, k)[k - c..]
    ensures TopBitSet(b) == ToBits(x, k)[k - c]
    ensures ToBits(ShiftLeft(b), 8)[..c - 1] == ToBits(x, k)[k - c + 1..]
  {
    TopBit(b);
    ShiftedRegister(b);
    WindowShift(ToBits(b, 8), ToBits(ShiftLeft(b), 8), ToBits(x, k), c);
  }

  /** The window argument behind `ShiftOut`, on plain sequences. */
  lemma WindowShift(reg: seq<bool>, next: seq<bool>, src: seq<bool>, c: nat)
    requires |reg| == 8 && |next| == 8 && 1 <= c <= |src| && c <= 8
    requires reg[..c] == src[|src| - c..]
    requires next[..7] == reg[1..]
    ensures reg[0] == src[|src| - c]
    ensures next[..c - 1] == src[|src| - c + 1..]
  {
    assert reg[..c][0] == src[|src| - c..][0];
    assert next[..c - 1] == next[..7][..c - 1];
    assert reg[1..][..c - 1] == reg[..c][1..];
  }

  /** `b & 0x80` is the first of the byte's eight bits. */
  lemma TopBit(b: Byte)
    ensures ToBits(b, 8)[0] == TopBitSet(b)
  {
    RegisterShift(b, 8);
    assert Pow2(7) == 128;
  }

  /** `b <<= 1` on a byte drops its first bit and appends a zero. */
  lemma ShiftedRegister(b: Byte)
    ensures ToBits(ShiftLeft(b), 8)[..7] == ToBits(b, 8)[1..]
  {
    RegisterShift(b, 8);
    assert Pow2(8) == 256;
    ToBitsMod(2 * b, 8, 8);
  }

  lemma LowBit(v: nat)
    ensures (if v % 2 == 1 then 1 else 0) == v % 2
  {
  }

  lemma OnesSnoc(bits: seq<bool>, b: bool)
    ensures Ones(bits + [b]) == Ones(bits) + (if b then 1 else 0)
  {
    assert (bits + [b])[..|bits|] == bits;
  }

  /**
    * The `len` bits a downward-walking serialiser emits from `mem[p]`,
    * `mem[p-1]`, ...: first the low `len % 8` bits of `mem[p]` (all eight when
    * `len` is a multiple of 8), then all eight bits of each lower element.
    */
  function ChunkBits(mem: seq<nat>, p: nat, len: nat): (r: seq<bool>)
    requires p < |mem| && len <= 8 * (p + 1)
    ensures |r| == len
    decreases len
  {
    if len <= 8 then ToBits(mem[p], len)
    else
      var first := FirstChunk(len);
      ToBits(mem[p], first) + ChunkBits(mem, p - 1, len - first)
  }

  /** Size of the first chunk `ChunkBits` takes: `len & 7`, or 8 when that is zero. */
  function FirstChunk(len: nat): (k: nat)
    ensures 1 <= k <= 8
    ensures len > 0 ==> k <= len && (len - k) % 8 == 0
  {
    if len % 8 == 0 then 8 else len % 8
  }

  /** `b <<= 8 - k` brings the low `k` bits of a byte to the top of the register. */
  lemma AlignChunk(x: Byte, k: nat)
    requires 1 <= k < 8
    ensures ToBits(AlignLeft(x, k), 8)[..k] == ToBits(x, k)
  {
    assert Pow2(8) == 256;
    ToBitsMod(x * Pow2(8 - k), 8, 8);
    ToBitsShiftUp(x, k, 8 - k);
  }

  /** The first chunk of `ChunkBits` and what follows it. */
  lemma ChunkBitsHead(mem: seq<nat>, p: nat, len: nat)
    requires p < |mem| && 0 < len <= 8 * (p + 1)
    ensures len > FirstChunk(len) ==> p >= 1 && len - FirstChunk(len) <= 8 * p
    ensures ChunkBits(mem, p, len)
      == ToBits(mem[p], FirstChunk(len))
         + (if len > FirstChunk(len) then ChunkBits(mem, p - 1, len - FirstChunk(len)) else [])
  {
  }

  /** A downward walk over `mem` that started at `p` with `len` bits has
      emitted `prefix` and has `n` bits left, starting at element `q`. */
  predicate Emitted(mem: seq<nat>, p: nat, len: nat, q: nat, n: nat, prefix: seq<bool>)
    requires p < |mem| && len <= 8 * (p + 1)
  {
    if n == 0 then prefix == ChunkBits(mem, p, len)
    else q < |mem| && n <= 8 * (q + 1) && prefix + ChunkBits(mem, q, n) == ChunkBits(mem, p, len)
  }

  /** Emitting the next chunk of a walk moves it one element down. */
  lemma ChunkAdvance(mem: seq<nat>, p: nat, len: nat, q: nat, n: nat, prefix: seq<bool>)
    requires p < |mem| && len <= 8 * (p + 1)
    requires n > 0 && Emitted(mem, p, len, q, n, prefix)
    ensures n > FirstChunk(n) ==>
      (q >= 1 && FirstChunk(n - FirstChunk(n)) == 8
       && Emitted(mem, p, len, q - 1, n - FirstChunk(n), prefix + ToBits(mem[q], FirstChunk(n))))
    ensures n == FirstChunk(n) ==> Emitted(mem, p, len, q, 0, prefix + ToBits(mem[q], FirstChunk(n)))
  {
    ChunkBitsHead(mem, q, n);
  }

  /** Two bytes stored little-endian at `[lo, hi]` serialise, 12 bits from the
      top byte down, as the low 12 bits of the word they form. */
  lemma ChunkBitsTwelve(lo: Byte, hi: Byte)
    ensures ChunkBits([lo, hi], 1, 12) == ToBits(lo + 256 * hi, 12)
  {
    var v := lo + 256 * hi;
    ToBitsSplit(v, 4, 8);
    assert Pow2(8) == 256;
    DivModUnique(v, 256, hi, lo);
    assert Shr(v, 8) == hi;
    ToBitsMod(v, 8, 8);
    assert v % Pow2(8) == lo;
  }

  /** Extending a prefix of `s` by its next element. */
  lemma PrefixSnoc(before: seq<bool>, s: seq<bool>, m: nat)
    requires m < |s|
    ensures before + s[..m] + [s[m]] == before + s[..m + 1]
  {
    assert s[..m + 1] == s[..m] + [s[m]];
  }

  /** A serial shift register: the top `k` bits of `b0` are shifted out most
      significant first, appended to `before`, and the ones are counted. */
  method ShiftOutChunk(b0: Byte, x: Byte, k: nat, before: seq<bool>, ones0: nat)
    returns (bits: seq<bool>, ones: nat)
    requires 1 <= k <= 8 && ToBits(b0, 8)[..k] == ToBits(x, k)
    requires ones0 == Ones(before)
    ensures bits == before + ToBits(x, k) && ones == Ones(bits)
  {
    var b := b0;
    var c := k;
    bits := before;
    ones := ones0;
    while c > 0
      invariant c <= k
      invariant ToBits(b, 8)[..c] == ToBits(x, k)[k - c..]
      invariant bits == before + ToBits(x, k)[..k - c]
      invariant ones == Ones(bits)
    {
      ShiftOut(b, x, k, c);
      var bit := TopBitSet(b);
      OnesSnoc(bits, bit);
      if bit {
        ones := ones + 1;
      }
      PrefixSnoc(before, ToBits(x, k), k - c);
      bits := bits + [bit];
      b := ShiftLeft(b);
      c := c - 1;
    }
  }

  /* ---------------- mask-and-shift word senders ---------------- */

  /** Appending a bit toggles the parity exactly when the bit is a `1`. */
  lemma ParitySnoc(bits: seq<bool>, b: bool)
    ensures ParityBit(bits + [b]) == (ParityBit(bits) != b)
  {
    OnesSnoc(bits, b);
  }

  /** One turn of a word sender: the masked bit is the register's next bit,
      and `data <<= 1` brings the one after it under the mask. */
  lemma SenderStep(reg: nat, width: nat, n: nat, src: seq<bool>, k: nat)
    requires 1 <= n <= width && k < n == |src|
    requires ToBits(reg, n)[..n - k] == src[k..]
    ensures (Shr(reg, n - 1) % 2 == 1) == src[k]
    ensures ToBits((2 * reg) % Pow2(width), n)[..n - k - 1] == src[k + 1..]
  {
    RegisterShift(reg, n);
    ToBitsMod(2 * reg, n, width);
    var next := ToBits((2 * reg) % Pow2(width), n);
    assert ToBits(reg, n)[..n - k][0] == src[k..][0];
    assert next[..n - k - 1] == next[..n - 1][..n - k - 1];
    assert ToBits(reg, n)[1..][..n - k - 1] == ToBits(reg, n)[..n - k][1..];
  }

  /**
    * A mask-and-shift word sender on a `width`-bit register: the parity flag
    * is cleared, then `n` times the bit under the mask `1 << (n - 1)` goes
    * out, toggling the flag when it is a `1`, and the register shifts left.
    */
  method SendWord(data: nat, n: nat, width: nat) returns (bits: seq<bool>, parity: bool)
    requires 1 <= n <= width && data < Pow2(width)
    ensures bits == ToBits(data, n)
    ensures parity == ParityBit(bits)
  {
    var reg: nat := data;
    var src := ToBits(data, n);
    bits := [];
    parity := false;
    var k := 0;
    assert src[0..] == src;
    while k < n
      invariant k <= n && reg < Pow2(width)
      invariant ToBits(reg, n)[..n - k] == src[k..]
      invariant bits == src[..k]
      invariant parity == ParityBit(bits)
    {
      reg, bits, parity := SendOneBit(reg, width, n, src, k, bits, parity);
      k := k + 1;
    }
  }

  /** One turn of the word senders' loop. */
  method SendOneBit(reg: nat, width: nat, n: nat, src: seq<bool>, k: nat, bits: seq<bool>, parity: bool)
    returns (reg': nat, bits': seq<bool>, parity': bool)
    requires 1 <= n <= width && k < n == |src| && reg < Pow2(width)
    requires ToBits(reg, n)[..n - k] == src[k..] && bits == src[..k] && parity == ParityBit(bits)
    ensures reg' < Pow2(width) && ToBits(reg', n)[..n - k - 1] == src[k + 1..]
    ensures bits' == src[..k + 1] && parity' == ParityBit(bits')
  {
    SenderStep(reg, width, n, src, k);
    var bit := Shr(reg, n - 1) % 2 == 1;
    ParitySnoc(bits, bit);
    parity' := parity;
    if bit {
      parity' := !parity;
    }
    assert src[..k + 1] == src[..k] + [bit];
    bits' := bits + [bit];
    reg' := (2 * reg) % Pow2(width);
  }
}
