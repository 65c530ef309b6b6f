/**
  * The byte-sequence recorder of the two sniffers' serial console (the same
  * text in src/sniffer.c and sniffer.c): after 'S', characters that are no
  * command key are taken in pairs, each pair decoded as two hexadecimal
  * digits into the next byte of `data_tmp`; 'W' and 'Q' end the sequence
  * (and send it), and 'B' loads the five-byte beep command. Sending, printing
  * and the other command keys do not touch the recorder.
  */
module HexInput {
  import opened Bits

  /** A character as the serial buffer holds it, one byte. */
  type Key = c: char | c as int < 256 witness '0'

  /* ---------------- digit decoding ---------------- */

  /** `if (c < ':') c -= 48; else c -= 55;` on a `uint8_t`. */
  function DigitValue(c: Key): Byte
  {
    if c < ':' then (c as int - 48) % 256 else (c as int - 55) % 256
  }

  /** `data_tmp[s_len] = 16 * s_c[0]; data_tmp[s_len] += s_c[1];`, each
      assignment truncated to a byte. */
  function PairByte(hi: Key, lo: Key): Byte
  {
    ((16 * DigitValue(hi)) % 256 + DigitValue(lo)) % 256
  }

  /** An upper-case hexadecimal digit. */
  predicate IsHexDigit(c: Key)
  {
    '0' <= c <= '9' || 'A' <= c <= 'F'
  }

  /** The value of a hexadecimal digit, from its character class. */
  function HexValue(c: Key): nat
    requires IsHexDigit(c)
  {
    if '0' <= c <= '9' then c as int - '0' as int else c as int - 'A' as int + 10
  }

  /** The upper-case digit for a nibble. */
  function HexDigit(n: nat): (c: Key)
    requires n < 16
    ensures IsHexDigit(c) && HexValue(c) == n
  {
    if n < 10 then ('0' as int + n) as char else ('A' as int + n - 10) as char
  }

  /** A digit decodes to its value. */
  lemma DigitDecodes(c: Key)
    requires IsHexDigit(c)
    ensures DigitValue(c) == HexValue(c)
  {
  }

  /** Two hexadecimal digits decode to `16 * hi + lo`. */
  lemma PairDecodes(hi: Key, lo: Key)
    requires IsHexDigit(hi) && IsHexDigit(lo)
    ensures PairByte(hi, lo) == 16 * HexValue(hi) + HexValue(lo)
  {
    DigitDecodes(hi);
    DigitDecodes(lo);
    var v := 16 * HexValue(hi) + HexValue(lo);
    DivModUnique(16 * HexValue(hi), 256, 0, 16 * HexValue(hi));
    DivModUnique(v, 256, 0, v);
  }

  /** Every byte is typed as its two upper-case digits. */
  lemma PairRoundTrip(b: Byte)
    ensures PairByte(HexDigit(b / 16), HexDigit(b % 16)) == b
  {
    PairDecodes(HexDigit(b / 16), HexDigit(b % 16));
  }

  /**
    * Lower-case 'a' to 'f' have 32 added to their value: as the first digit
    * of a pair that vanishes in the truncation of `16 * c`, as the second it
    * adds 0x20 to the byte.
    */
  lemma LowerCaseDigits(c: Key, lo: Key, hi: Key)
    requires 'a' <= c <= 'f' && IsHexDigit(lo) && IsHexDigit(hi)
    ensures DigitValue(c) == c as int - 'a' as int + 10 + 32
    ensures PairByte(c, lo) == PairByte(((c as int) - 32) as char, lo)
    ensures PairByte(hi, c) == (PairByte(hi, ((c as int) - 32) as char) + 32) % 256
  {
    var u: Key := ((c as int) - 32) as char;
    DigitDecodes(u);
    DigitDecodes(hi);
    var v := DigitValue(u);
    assert (16 * DigitValue(c)) as int == 16 * (v as int) + 512;
    ModMultiple(16 * v, 2, 256);
    var h := (16 * DigitValue(hi)) % 256;
    ModAddSmallMultiple(h + v, 32);
  }

  lemma ModAddSmallMultiple(x: nat, d: nat)
    ensures ((x % 256) + d) % 256 == (x + d) % 256
  {
    var q := x / 256;
    ModMultiple(x % 256 + d, q, 256);
    assert x + d == x % 256 + d + 256 * q;
  }

  /* ---------------- the recorder ---------------- */

  /** Which sniffer reads the keys: their command keys differ. */
  datatype Sniffer = Legacy | Refactored

  /** The keys the `switch (readkey)` handles itself (in a build without
      HARDWARE_DEBUG and SOFTWARE_DEBUG); every other key is the default case. */
  predicate IsCommand(s: Sniffer, c: Key)
  {
    match s
    case Legacy => c in "SWQRrlLkKB"
    case Refactored => c in "?SWQRrvlkB"
  }

  /** The five payload bytes 'B' loads: the beep command. */
  const Beep: seq<Byte> := [0x00, 0x5E, 0x29, 0x60, 0x01]

  /** `readSeq`, `s_len`, `s_dig`, `s_c[0]` and the 32-byte `data_tmp`. */
  datatype Recorder = Recorder(reading: bool, length: Byte, digits: nat, first: Key, data: seq<Byte>)
  {
    predicate Valid()
    {
      digits <= 1 && |data| == 32
    }
  }

  /** A key either leaves a recorder, or makes the default case write
      `data_tmp[s_len]` with `s_len` already past the buffer's end. */
  datatype Typed = Recorded(r: Recorder) | Overrun

  /** 'S': start a new sequence. */
  function Start(r: Recorder): (r': Recorder)
    requires r.Valid()
    ensures r'.Valid() && r'.reading && r'.length == 0 && r'.digits == 0 && r'.data == r.data
  {
    r.(reading := true, length := 0, digits := 0, first := 0 as char)
  }

  /**
    * The recorder's part of one key: 'S' starts, 'W' and 'Q' stop reading,
    * 'B' loads the beep bytes and sets the length to 5, other command keys
    * change nothing, and any other key is a digit when a sequence is being
    * read.
    */
  function Type(s: Sniffer, r: Recorder, c: Key): (t: Typed)
    requires r.Valid()
    ensures t.Recorded? ==> t.r.Valid()
    ensures c == 'S' ==> t == Recorded(Start(r))
    ensures c == 'W' || c == 'Q' ==> t == Recorded(r.(reading := false))
    ensures c == 'B' ==> t == Recorded(r.(length := 5, data := Beep + r.data[5..]))
    ensures IsCommand(s, c) && c !in "SWQB" ==> t == Recorded(r)
    ensures IsCommand(s, c) || !r.reading ==> t.Recorded?
    ensures !IsCommand(s, c) && !r.reading ==> t == Recorded(r)
  {
    if c == 'S' then Recorded(Start(r))
    else if c == 'W' || c == 'Q' then Recorded(r.(reading := false))
    else if c == 'B' then Recorded(r.(length := 5, data := Beep + r.data[5..]))
    else if IsCommand(s, c) || !r.reading then Recorded(r)
    else Digit(r, c)
  }

  /** The default case while reading: the first digit of a pair is held, the
      second completes the byte at `data_tmp[s_len]`. */
  function Digit(r: Recorder, c: Key): (t: Typed)
    requires r.Valid()
    ensures r.digits == 0 ==> t == Recorded(r.(digits := 1, first := c))
    ensures r.digits == 1 && r.length >= 32 ==> t == Overrun
    ensures r.digits == 1 && r.length < 32 ==>
      t.Recorded? && t.r.Valid() && t.r.digits == 0 && t.r.length == r.length + 1
      && t.r.data[r.length] == PairByte(r.first, c)
      && (forall i :: 0 <= i < 32 && i != r.length ==> t.r.data[i] == r.data[i])
  {
    if r.digits == 0 then Recorded(r.(digits := 1, first := c))
    else if r.length >= 32 then Overrun
    else Recorded(r.(digits := 0, first := 0 as char, length := r.length + 1,
                     data := r.data[r.length := PairByte(r.first, c)]))
  }

  /** A run of keys; an overrun ends it. */
  function TypeAll(s: Sniffer, r: Recorder, keys: seq<Key>): (t: Typed)
    requires r.Valid()
    ensures t.Recorded? ==> t.r.Valid()
    decreases |keys|
  {
    if keys == [] then Recorded(r)
    else match Type(s, r, keys[0])
      case Overrun => Overrun
      case Recorded(r') => TypeAll(s, r', keys[1..])
  }

  /** The keys that type a sequence of bytes as upper-case digit pairs. */
  function HexKeys(bytes: seq<Byte>): (keys: seq<Key>)
    ensures |keys| == 2 * |bytes|
    decreases |bytes|
  {
    if bytes == [] then [] else [HexDigit(bytes[0] / 16), HexDigit(bytes[0] % 16)] + HexKeys(bytes[1..])
  }

  /** No nibble of the bytes is 0xB, whose digit 'B' is a command key. */
  predicate TypeableAsHex(bytes: seq<Byte>)
  {
    forall i :: 0 <= i < |bytes| ==> bytes[i] / 16 != 11 && bytes[i] % 16 != 11
  }

  /**
    * Typing the digit pairs of `bytes` into a recorder that is reading a
    * sequence with `length` bytes so far appends them: `data_tmp` holds them
    * from `length` on, the bytes before are kept, and no digit is pending.
    */
  lemma {:induction false} TypedBytesRecorded(s: Sniffer, r: Recorder, bytes: seq<Byte>)
    requires r.Valid() && r.reading && r.digits == 0
    requires r.length + |bytes| <= 32 && TypeableAsHex(bytes)
    ensures TypeAll(s, r, HexKeys(bytes)).Recorded?
    ensures var r' := TypeAll(s, r, HexKeys(bytes)).r;
      r'.reading && r'.digits == 0 && r'.length == r.length + |bytes|
      && r'.data[..r.length] == r.data[..r.length]
      && r'.data[r.length..r'.length] == bytes
    decreases |bytes|
  {
    if bytes == [] {
      assert HexKeys(bytes) == [];
    } else {
      var b := bytes[0];
      assert HexKeys(bytes) == [HexDigit(b / 16), HexDigit(b % 16)] + HexKeys(bytes[1..]);
      TypePair(s, r, b, HexKeys(bytes[1..]));
      var r2 := Appended(r, b);
      assert TypeableAsHex(bytes[1..]) by {
        forall i | 0 <= i < |bytes[1..]|
          ensures bytes[1..][i] / 16 != 11 && bytes[1..][i] % 16 != 11
        {
          assert bytes[1..][i] == bytes[i + 1];
        }
      }
      TypedBytesRecorded(s, r2, bytes[1..]);
      var r' := TypeAll(s, r2, HexKeys(bytes[1..])).r;
      SliceJoin(r'.data, r.data, r.length, b, bytes[1..]);
      assert [b] + bytes[1..] == bytes;
    }
  }

  /** The recorder after a completed pair that decodes to `b`. */
  function Appended(r: Recorder, b: Byte): (r': Recorder)
    requires r.Valid() && r.length < 32
    ensures r'.Valid()
  {
    r.(digits := 0, first := 0 as char, length := r.length + 1, data := r.data[r.length := b])
  }

  /** Typing the two digits of a byte without a 0xB nibble appends it. */
  lemma TypePair(s: Sniffer, r: Recorder, b: Byte, rest: seq<Key>)
    requires r.Valid() && r.reading && r.digits == 0 && r.length < 32
    requires b / 16 != 11 && b % 16 != 11
    ensures TypeAll(s, r, [HexDigit(b / 16), HexDigit(b % 16)] + rest) == TypeAll(s, Appended(r, b), rest)
  {
    var hi, lo := HexDigit(b / 16), HexDigit(b % 16);
    NotCommand(s, b / 16);
    NotCommand(s, b % 16);
    PairRoundTrip(b);
    var keys := [hi, lo] + rest;
    var r1 := r.(digits := 1, first := hi);
    assert Type(s, r, hi) == Recorded(r1);
    assert Type(s, r1, lo) == Recorded(Appended(r, b));
    assert keys[1..][1..] == rest;
  }

  /** The slices of a buffer after byte `b` was written at `at` and `rest`
      after it. */
  lemma SliceJoin(after: seq<Byte>, before: seq<Byte>, at: nat, b: Byte, rest: seq<Byte>)
    requires |after| == |before| && at + 1 + |rest| <= |before|
    requires after[..at + 1] == before[at := b][..at + 1]
    requires after[at + 1..at + 1 + |rest|] == rest
    ensures after[..at] == before[..at]
    ensures after[at..at + 1 + |rest|] == [b] + rest
  {
    assert after[..at] == after[..at + 1][..at];
    assert after[at] == after[..at + 1][at];
    assert after[at..at + 1 + |rest|] == [after[at]] + after[at + 1..at + 1 + |rest|];
  }

  /** The digit of a nibble other than 0xB is no command key of either
      sniffer. */
  lemma NotCommand(s: Sniffer, n: nat)
    requires n < 16 && n != 11
    ensures !IsCommand(s, HexDigit(n))
  {
  }

  /** 'B', the digit of 0xB, is the beep command in both sniffers. */
  lemma DigitBIsBeep(s: Sniffer, r: Recorder)
    requires r.Valid()
    ensures IsCommand(s, HexDigit(11))
    ensures Type(s, r, HexDigit(11)) == Recorded(r.(length := 5, data := Beep + r.data[5..]))
  {
  }

  /**
    * 'S' followed by the digit pairs of up to 32 bytes without a 0xB nibble
    * records exactly those bytes, in either sniffer.
    */
  lemma SequenceRecorded(s: Sniffer, r: Recorder, bytes: seq<Byte>)
    requires r.Valid() && |bytes| <= 32 && TypeableAsHex(bytes)
    ensures TypeAll(s, r, ['S'] + HexKeys(bytes)).Recorded?
    ensures var r' := TypeAll(s, r, ['S'] + HexKeys(bytes)).r;
      r'.reading && r'.length == |bytes| && r'.data[..|bytes|] == bytes
  {
    var keys := ['S'] + HexKeys(bytes);
    assert keys[1..] == HexKeys(bytes);
    assert IsCommand(s, 'S');
    TypedBytesRecorded(s, Start(r), bytes);
  }
}
