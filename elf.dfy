/**
 * The default hash function of the hash tables (hash.c:38-51): the ELF-style
 * hash, accumulated over the key's bytes in a 64-bit `long`.  Each step clears
 * bits 28-31 of the state but keeps whatever a carry has put above bit 31, as
 * the `long` of the source does.  The corrected hash reads the key's bytes as
 * unsigned; the hash as written reads them as signed `char`s.
 */
module ElfHashing {
  import opened Base

  /** The bits of the 64-bit state the default hash keeps clear once a byte
      read as unsigned has been shifted in: bits 28-31, and every bit above 31
      except those 32, 36, ..., 60 that a carry out of bit 31 can reach. */
  const Dirty: bv64 := 0xEEEE_EEEE_F000_0000

  /** A state with none of the `Dirty` bits set. */
  predicate Clean(h: bv64)
  {
    h & Dirty == 0
  }

  /** One step of the default hash on a byte already widened to `long`: shift
      it in, fold the top nibble of the low 32 bits back (hash.c:44-48). */
  function Step(h: bv64, b: bv64): bv64
  {
    var h1 := (h << 4) + b;
    var g := h1 & 0xF000_0000;
    if g != 0 then (h1 ^ (g >> 24)) ^ g else h1
  }

  /** One step of the corrected hash: the byte is read as unsigned.  A clean
      state stays clean, so bits 28-31 are clear after every step and the sign
      bit of the `long` is never reached. */
  function ElfStep(h: bv64, c: KeyByte): (r: bv64)
    requires Clean(h)
    ensures Clean(r)
    ensures r & 0xF000_0000 == 0 && r < 0x8000_0000_0000_0000
  {
    Step(h, c as bv64)
  }

  /** The hash state after the bytes of `s`, first byte first: always clean,
      hence a non-negative `long`. */
  function ElfAcc(s: Key): (r: bv64)
    ensures Clean(r) && r < 0x8000_0000_0000_0000
  {
    if s == [] then 0 else ElfStep(ElfAcc(s[..|s| - 1]), s[|s| - 1])
  }

  /** The signed value of a 64-bit pattern, as a `long` holds it. */
  function AsLong(x: bv64): int
  {
    if x < 0x8000_0000_0000_0000 then x as int else x as int - 0x1_0000_0000_0000_0000
  }

  /** The hash value the corrected default hash gives a key: the `long` the
      source returns, which is never negative. */
  function ElfHash(key: Key): (h: nat)
    ensures h == AsLong(ElfAcc(key))
  {
    ElfAcc(key) as int
  }

  /** The default hash function's loop over the key's bytes (hash.c:43-49). */
  method DefaultHash(key: Key) returns (h: nat)
    ensures h == ElfHash(key)
  {
    var acc: bv64 := 0;
    var i := 0;
    while i < |key|
      invariant 0 <= i <= |key|
      invariant acc == ElfAcc(key[..i])
    {
      assert key[..i + 1][..i] == key[..i];
      acc := ElfStep(acc, key[i]);
      i := i + 1;
    }
    assert key[..|key|] == key;
    h := acc as int;
  }

  // The default hash as written: the key's bytes are plain `char`, which is
  // signed on the usual targets.

  /** A byte of the key read as a signed `char` and widened to `long`: bytes
      128..255 become -128..-1, sign-extended. */
  function SignedChar64(c: KeyByte): (b: bv64)
    ensures c < 128 ==> b == c as bv64
  {
    if c < 128 then c as bv64 else (c as bv64) | 0xFFFF_FFFF_FFFF_FF00
  }

  /** The hash state as written, in 64-bit two's-complement arithmetic (the
      shift of a negative `long` is taken to wrap). */
  function LongAcc(s: Key): bv64
  {
    if s == [] then 0 else Step(LongAcc(s[..|s| - 1]), SignedChar64(s[|s| - 1]))
  }

  /** The value the default hash returns as written. */
  function DefaultHashAsWritten(key: Key): int
  {
    AsLong(LongAcc(key))
  }

  /** On a key of 7-bit bytes, such as an ASCII file name, the hash as written
      and the corrected hash agree: signedness is the only difference. */
  lemma {:induction false} SevenBitKeysAgree(key: Key)
    requires forall i | 0 <= i < |key| :: key[i] < 128
    ensures DefaultHashAsWritten(key) == ElfHash(key)
    decreases |key|
  {
    AccAgree(key);
  }

  lemma {:induction false} AccAgree(key: Key)
    requires forall i | 0 <= i < |key| :: key[i] < 128
    ensures LongAcc(key) == ElfAcc(key)
    decreases |key|
  {
    if key != [] {
      var init := key[..|key| - 1];
      assert forall i | 0 <= i < |init| :: init[i] == key[i];
      AccAgree(init);
    }
  }

  /** A one-byte key with the top bit set hashes to a negative value as written,
      while the corrected hash of the same key is the byte itself. */
  lemma SignedByteHashesNegative()
    ensures DefaultHashAsWritten([128]) == -4026531984
    ensures ElfHash([128]) == 128
  {
    assert [128][..0] == [];
    assert SignedChar64(128) == 0xFFFF_FFFF_FFFF_FF80;
    assert LongAcc([128]) == 0xFFFF_FFFF_0FFF_FF70;
    assert ElfAcc([128]) == 128;
  }

  /** The state after one more byte is one more step. */
  lemma AccSnoc(s: Key, c: KeyByte)
    ensures ElfAcc(s + [c]) == ElfStep(ElfAcc(s), c)
  {
    assert (s + [c])[..|s|] == s;
  }

  /** `n` copies of the byte `c`. */
  function Repeat(c: KeyByte, n: nat): (s: Key)
    ensures |s| == n
  {
    if n == 0 then [] else Repeat(c, n - 1) + [c]
  }

  /** Seven bytes 0F fill the 28 bits below the fold with ones. */
  lemma SevenNibbles()
    ensures ElfAcc(Repeat(15, 7)) == 0xFFF_FFFF
  {
    AccSnoc(Repeat(15, 0), 15);
    assert ElfAcc(Repeat(15, 1)) == 0xF;
    AccSnoc(Repeat(15, 1), 15);
    assert ElfAcc(Repeat(15, 2)) == 0xFF;
    AccSnoc(Repeat(15, 2), 15);
    assert ElfAcc(Repeat(15, 3)) == 0xFFF;
    AccSnoc(Repeat(15, 3), 15);
    assert ElfAcc(Repeat(15, 4)) == 0xFFFF;
    AccSnoc(Repeat(15, 4), 15);
    assert ElfAcc(Repeat(15, 5)) == 0xF_FFFF;
    AccSnoc(Repeat(15, 5), 15);
    assert ElfAcc(Repeat(15, 6)) == 0xFF_FFFF;
    AccSnoc(Repeat(15, 6), 15);
  }

  /** The key of seven bytes 0F and one byte 10 hashes to 2^32: the carry out
      of bit 31 stays in the state, as it does in the `long` of the source, and
      the value does not fit an `int`. */
  lemma CarryKept()
    ensures ElfHash(Repeat(15, 7) + [16]) == 0x1_0000_0000
  {
    var k := Repeat(15, 7) + [16];
    SevenNibbles();
    AccSnoc(Repeat(15, 7), 16);
    assert ElfStep(0xFFF_FFFF, 16) == Step(0xFFF_FFFF, 16) == 0x1_0000_0000;
    assert ElfAcc(k) == 0x1_0000_0000;
  }
}
