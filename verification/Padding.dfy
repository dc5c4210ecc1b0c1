/**
 Block padding and CBC framing of utils/pkcs8enc/pkcs8enc.go, utils/ecdsa/edcsa.go
 and services/keymaterial/key-material.go: section 6.2 of RFC 8018 with the
 padding of section 6.3 of RFC 5652.
 */
module Padding {
  import opened Wrappers

  newtype byte = x: int | 0 <= x < 256

  const BLOCK_SIZE: nat := 16

  function PadLen(n: nat): (k: nat)
    ensures 1 <= k <= BLOCK_SIZE && (n + k) % BLOCK_SIZE == 0
  {
    BLOCK_SIZE - n % BLOCK_SIZE
  }

  function Repeat(k: nat): seq<byte>
    requires k < 256
  {
    seq(k, i => k as byte)
  }

  function Pad(m: seq<byte>): seq<byte>
  {
    m + Repeat(PadLen(|m|))
  }

  /** The padding loop of EncryptPemBlock: a copy, then one byte after the other. */
  method PadBuffer(data: array<byte>) returns (padded: array<byte>)
    ensures fresh(padded) && padded[..] == Pad(data[..])
  {
    var paddingLen := BLOCK_SIZE - data.Length % BLOCK_SIZE;
    padded := new byte[data.Length + paddingLen];
    forall i | 0 <= i < data.Length { padded[i] := data[i]; }
    for i := data.Length to padded.Length
      invariant padded[..data.Length] == data[..]
      invariant forall j :: data.Length <= j < i ==> padded[j] == paddingLen as byte
    {
      padded[i] := paddingLen as byte;
    }
  }

  // ----- unpadding -----

  /** Unpadding as in pkcs8enc.Decrypt; callers have checked that x is made of whole blocks. */
  function Unpad(x: seq<byte>): Option<seq<byte>>
    requires |x| >= BLOCK_SIZE
  {
    var k := x[|x| - 1] as int;
    if k == 0 || k > BLOCK_SIZE || x[|x| - k..] != Repeat(k) then None else Some(x[..|x| - k])
  }

  lemma UnpadPad(m: seq<byte>)
    ensures |Pad(m)| >= BLOCK_SIZE && |Pad(m)| % BLOCK_SIZE == 0 && Unpad(Pad(m)) == Some(m)
  {
    var k := PadLen(|m|);
    var x := Pad(m);
    assert x[|x| - 1] == k as byte;
    assert x[|x| - k..] == Repeat(k) && x[..|x| - k] == m;
  }

  /** On whole blocks unpadding succeeds exactly on padded strings, with the string that was padded. */
  lemma UnpadIff(x: seq<byte>, m: seq<byte>)
    requires |x| >= BLOCK_SIZE && |x| % BLOCK_SIZE == 0
    ensures Unpad(x) == Some(m) <==> x == Pad(m)
  {
    if x == Pad(m) { UnpadPad(m); }
    if Unpad(x) == Some(m) {
      var k := x[|x| - 1] as int;
      assert x == x[..|x| - k] + x[|x| - k..];
      assert PadLen(|m|) == k;
    }
  }

  /** Padding is injective. */
  lemma PadIsInjective(m: seq<byte>, n: seq<byte>)
    requires Pad(m) == Pad(n)
    ensures m == n
  {
    UnpadPad(m);
    UnpadPad(n);
  }

  /**
   The unpadding loop of DecryptPemBlock and DecryptPEM, defined on every length;
   it agrees with Unpad on whole blocks.
   */
  method UnpadLoop(decrypted: seq<byte>) returns (r: Option<seq<byte>>)
    ensures |decrypted| >= BLOCK_SIZE ==> r == Unpad(decrypted)
    ensures if r.Some? then EndsPadded(decrypted, r.value) else !EndsInPadding(decrypted)
  {
    if |decrypted| == 0 { return None; }
    var paddingLen := decrypted[|decrypted| - 1] as int;
    LastByteDecides(decrypted);
    if paddingLen == 0 || paddingLen > BLOCK_SIZE || paddingLen > |decrypted| { return None; }
    for i := 0 to paddingLen
      invariant forall j :: |decrypted| - i <= j < |decrypted| ==> decrypted[j] == paddingLen as byte
    {
      if decrypted[|decrypted| - 1 - i] != paddingLen as byte {
        OneByteDiffers(decrypted, paddingLen, i);
        return None;
      }
    }
    AllBytesAgree(decrypted, paddingLen);
    r := Some(decrypted[..|decrypted| - paddingLen]);
  }

  /** x is m and 1 to BLOCK_SIZE bytes of their own count. */
  ghost predicate EndsPadded(x: seq<byte>, m: seq<byte>)
  {
    0 < |x| - |m| <= BLOCK_SIZE && x == m + Repeat(|x| - |m|)
  }

  ghost predicate EndsInPadding(x: seq<byte>)
  {
    exists k :: 0 < k <= BLOCK_SIZE && k <= |x| && x[|x| - k..] == Repeat(k)
  }

  lemma OneByteDiffers(x: seq<byte>, k: nat, i: nat)
    requires i < k <= |x| && k < 256 && x[|x| - 1 - i] != k as byte
    ensures x[|x| - k..] != Repeat(k)
  {
    assert x[|x| - k..][k - 1 - i] != Repeat(k)[k - 1 - i];
  }

  lemma AllBytesAgree(x: seq<byte>, k: nat)
    requires k <= |x| && k < 256 && forall j :: |x| - k <= j < |x| ==> x[j] == k as byte
    ensures x[|x| - k..] == Repeat(k) && x == x[..|x| - k] + Repeat(k)
  {
  }

  /** Only the length named by the last byte can be the padding's. */
  lemma LastByteDecides(x: seq<byte>)
    requires x != []
    ensures forall k :: 0 < k <= BLOCK_SIZE && k <= |x| && x[|x| - k..] == Repeat(k) ==> x[|x| - 1] as int == k
  {
    forall k | 0 < k <= BLOCK_SIZE && k <= |x| && x[|x| - k..] == Repeat(k) ensures x[|x| - 1] as int == k {
      assert x[|x| - k..][k - 1] == Repeat(k)[k - 1];
    }
  }

  // ----- cipher block chaining over any invertible block cipher -----

  ghost predicate IsBlock(b: seq<byte>)
  {
    |b| == BLOCK_SIZE
  }

  function Power2(n: nat): (p: nat)
    ensures p > 0
  {
    if n == 0 then 1 else 2 * Power2(n - 1)
  }

  /** Exclusive or of the n low bits, bit by bit from the lowest. */
  function XorBits(a: nat, b: nat, n: nat): (r: nat)
    ensures r < Power2(n)
  {
    if n == 0 then 0 else 2 * XorBits(a / 2, b / 2, n - 1) + if a % 2 == b % 2 then 0 else 1
  }

  lemma Halves(high: nat, low: nat)
    requires low < 2
    ensures (2 * high + low) / 2 == high && (2 * high + low) % 2 == low
  {
  }

  lemma {:induction false} XorBitsTwice(a: nat, b: nat, n: nat)
    requires a < Power2(n)
    ensures XorBits(XorBits(a, b, n), b, n) == a
  {
    if n > 0 {
      XorBitsTwice(a / 2, b / 2, n - 1);
      Halves(XorBits(a / 2, b / 2, n - 1), if a % 2 == b % 2 then 0 else 1);
    }
  }

  /** The i-th bit. */
  function Bit(a: nat, i: nat): nat
  {
    if i == 0 then a % 2 else Bit(a / 2, i - 1)
  }

  /** A bit of the result is set exactly when the bits of the operands differ. */
  lemma {:induction false} XorBitsBit(a: nat, b: nat, n: nat, i: nat)
    requires i < n
    ensures Bit(XorBits(a, b, n), i) == 1 <==> Bit(a, i) != Bit(b, i)
  {
    Halves(XorBits(a / 2, b / 2, n - 1), if a % 2 == b % 2 then 0 else 1);
    if i > 0 { XorBitsBit(a / 2, b / 2, n - 1, i - 1); }
  }

  lemma {:induction false} XorBitsLaws(a: nat, b: nat, n: nat)
    ensures XorBits(a, b, n) == XorBits(b, a, n) && XorBits(a, a, n) == 0
    ensures a < Power2(n) ==> XorBits(a, 0, n) == a
  {
    if n > 0 { XorBitsLaws(a / 2, b / 2, n - 1); }
  }

  lemma ByteBits()
    ensures Power2(8) == 256
  {
    assert Power2(4) == 16;
  }

  function XorByte(a: byte, b: byte): byte
  {
    ByteBits();
    XorBits(a as nat, b as nat, 8) as byte
  }

  lemma XorTwice(a: byte, b: byte)
    ensures XorByte(XorByte(a, b), b) == a
  {
    ByteBits();
    XorBitsTwice(a as nat, b as nat, 8);
  }

  function Xor(a: seq<byte>, b: seq<byte>): (r: seq<byte>)
    requires |a| == |b|
    ensures |r| == |a|
  {
    seq(|a|, i requires 0 <= i < |a| => XorByte(a[i], b[i]))
  }

  /** Exclusive or is symmetric, and of a string with itself zero; each bit says whether the operands differ there. */
  lemma XorLaws(a: seq<byte>, b: seq<byte>, i: nat, bit: nat)
    requires |a| == |b| && i < |a| && bit < 8
    ensures Bit(Xor(a, b)[i] as nat, bit) == 1 <==> Bit(a[i] as nat, bit) != Bit(b[i] as nat, bit)
    ensures Xor(a, b)[i] == Xor(b, a)[i] && Xor(a, a)[i] == 0
    ensures b[i] == 0 ==> Xor(a, b)[i] == a[i]
  {
    ByteBits();
    XorBitsBit(a[i] as nat, b[i] as nat, 8, bit);
    XorBitsLaws(a[i] as nat, b[i] as nat, 8);
    XorBitsLaws(a[i] as nat, a[i] as nat, 8);
  }

  lemma XorCancels(a: seq<byte>, b: seq<byte>)
    requires |a| == |b|
    ensures Xor(Xor(a, b), b) == a
  {
    forall i | 0 <= i < |a| ensures Xor(Xor(a, b), b)[i] == a[i] { XorTwice(a[i], b[i]); }
  }

  /** A block cipher under one key. */
  datatype Cipher = Cipher(enc: seq<byte> -> seq<byte>, dec: seq<byte> -> seq<byte>)
  {
    ghost predicate Invertible()
    {
      && (forall b {:trigger enc(b)} {:trigger dec(b)} :: |b| == BLOCK_SIZE ==> |enc(b)| == |dec(b)| == BLOCK_SIZE)
      && (forall b {:trigger dec(enc(b))} :: |b| == BLOCK_SIZE ==> dec(enc(b)) == b)
    }

    ghost predicate IsPermutation()
    {
      Invertible() && forall b {:trigger enc(dec(b))} :: |b| == BLOCK_SIZE ==> enc(dec(b)) == b
    }
  }

  function CbcEncrypt(c: Cipher, iv: seq<byte>, data: seq<byte>): seq<byte>
    decreases |data|
  {
    if |data| < BLOCK_SIZE || |iv| != BLOCK_SIZE then []
    else
      var block := c.enc(Xor(data[..BLOCK_SIZE], iv));
      block + CbcEncrypt(c, block, data[BLOCK_SIZE..])
  }

  function CbcDecrypt(c: Cipher, iv: seq<byte>, data: seq<byte>): seq<byte>
    decreases |data|
  {
    if |data| < BLOCK_SIZE || |iv| != BLOCK_SIZE || |c.dec(data[..BLOCK_SIZE])| != BLOCK_SIZE then []
    else Xor(c.dec(data[..BLOCK_SIZE]), iv) + CbcDecrypt(c, data[..BLOCK_SIZE], data[BLOCK_SIZE..])
  }

  /** Chained decryption undoes chained encryption on whole blocks. */
  lemma {:induction false} CbcRoundTrip(c: Cipher, iv: seq<byte>, data: seq<byte>)
    requires c.Invertible() && IsBlock(iv) && |data| % BLOCK_SIZE == 0
    ensures |CbcEncrypt(c, iv, data)| == |data| && CbcDecrypt(c, iv, CbcEncrypt(c, iv, data)) == data
    decreases |data|
  {
    if |data| >= BLOCK_SIZE {
      var plain, more := data[..BLOCK_SIZE], data[BLOCK_SIZE..];
      var mixed := Xor(plain, iv);
      assert IsBlock(mixed);
      var block := c.enc(mixed);
      CbcRoundTrip(c, block, more);
      var all := CbcEncrypt(c, iv, data);
      assert all[..BLOCK_SIZE] == block && all[BLOCK_SIZE..] == CbcEncrypt(c, block, more);
      XorCancels(plain, iv);
      assert data == plain + more;
    }
  }

  /** The k-th block of 16 bytes. */
  function Block(data: seq<byte>, k: nat): seq<byte>
    requires 16 * k + 16 <= |data|
  {
    data[16 * k..16 * k + 16]
  }

  /** What a block is chained to: the block before it, or the initialisation vector. */
  function Before(iv: seq<byte>, data: seq<byte>, k: nat): seq<byte>
    requires 16 * k <= |data|
  {
    if k == 0 then iv else Block(data, k - 1)
  }

  lemma SliceOfRest(data: seq<byte>, d: nat, i: nat, j: nat)
    requires d <= i <= j <= |data|
    ensures data[i..j] == data[d..][i - d..j - d]
  {
  }

  lemma BlockOfRest(data: seq<byte>, k: nat)
    requires k > 0 && 16 * k + 16 <= |data|
    ensures |data[16..]| >= 16 * (k - 1) + 16 && Block(data, k) == Block(data[16..], k - 1)
  {
    SliceOfRest(data, 16, 16 * k, 16 * k + 16);
  }

  lemma BeforeInRest(iv: seq<byte>, data: seq<byte>, k: nat)
    requires k > 0 && 16 * k <= |data|
    ensures Before(iv, data, k) == Before(Block(data, 0), data[16..], k - 1)
  {
    if k > 1 { BlockOfRest(data, k - 1); }
  }

  /** Each block of the ciphertext is the cipher of the plaintext block xor the block before it. */
  lemma {:induction false} CbcBlock(c: Cipher, iv: seq<byte>, data: seq<byte>, k: nat)
    requires c.Invertible() && |iv| == 16 && |data| % 16 == 0 && 16 * k + 16 <= |data|
    ensures |CbcEncrypt(c, iv, data)| == |data|
    ensures var out := CbcEncrypt(c, iv, data);
            |Before(iv, out, k)| == 16 && Block(out, k) == c.enc(Xor(Block(data, k), Before(iv, out, k)))
    decreases k
  {
    CbcRoundTrip(c, iv, data);
    var out := CbcEncrypt(c, iv, data);
    var first := c.enc(Xor(data[..16], iv));
    assert IsBlock(Xor(data[..16], iv));
    assert Block(data, 0) == data[..16] && Block(out, 0) == first && out[16..] == CbcEncrypt(c, first, data[16..]);
    if k > 0 {
      CbcBlock(c, first, data[16..], k - 1);
      BlockOfRest(data, k);
      BlockOfRest(out, k);
      BeforeInRest(iv, out, k);
    }
  }

  /** A padded message is 1 to 16 bytes longer, a multiple of 16, and ends in the number of bytes added. */
  lemma PadIs(m: seq<byte>)
    ensures var x, k := Pad(m), |Pad(m)| - |m|;
            && 1 <= k <= 16 && |x| % 16 == 0 && x[..|m|] == m
            && forall i :: |m| <= i < |x| ==> x[i] as int == k
  {
  }

  // ----- a whole message -----

  function Encrypt(c: Cipher, iv: seq<byte>, m: seq<byte>): seq<byte>
  {
    CbcEncrypt(c, iv, Pad(m))
  }

  /** The checks of Decrypt: an IV of one block, a non-empty whole number of blocks, a valid padding. */
  function Decrypt(c: Cipher, iv: seq<byte>, data: seq<byte>): Option<seq<byte>>
  {
    if |iv| != BLOCK_SIZE || |data| == 0 || |data| % BLOCK_SIZE != 0 then None
    else
      var decrypted := CbcDecrypt(c, iv, data);
      if |decrypted| != |data| then None else Unpad(decrypted)
  }

  /** Decryption undoes encryption, for every message of every length. */
  lemma DecryptEncrypt(c: Cipher, iv: seq<byte>, m: seq<byte>)
    requires c.Invertible() && IsBlock(iv)
    ensures Decrypt(c, iv, Encrypt(c, iv, m)) == Some(m)
  {
    UnpadPad(m);
    CbcRoundTrip(c, iv, Pad(m));
  }

  lemma {:induction false} CbcDecryptLength(c: Cipher, iv: seq<byte>, data: seq<byte>)
    requires c.Invertible() && IsBlock(iv) && |data| % BLOCK_SIZE == 0
    ensures |CbcDecrypt(c, iv, data)| == |data|
    decreases |data|
  {
    if |data| >= BLOCK_SIZE { CbcDecryptLength(c, data[..BLOCK_SIZE], data[BLOCK_SIZE..]); }
  }

  /** Chained encryption undoes chained decryption as well. */
  lemma {:induction false} CbcReencrypts(c: Cipher, iv: seq<byte>, data: seq<byte>)
    requires c.IsPermutation() && IsBlock(iv) && |data| % BLOCK_SIZE == 0
    ensures CbcEncrypt(c, iv, CbcDecrypt(c, iv, data)) == data
    decreases |data|
  {
    if |data| >= BLOCK_SIZE {
      var block, more := data[..BLOCK_SIZE], data[BLOCK_SIZE..];
      assert IsBlock(block);
      var plain := Xor(c.dec(block), iv);
      CbcReencrypts(c, block, more);
      var all := CbcDecrypt(c, iv, data);
      assert all[..BLOCK_SIZE] == plain && all[BLOCK_SIZE..] == CbcDecrypt(c, block, more);
      XorCancels(c.dec(block), iv);
      assert data == block + more;
    }
  }

  /** Decryption gives m exactly on the encryption of m. */
  lemma DecryptIff(c: Cipher, iv: seq<byte>, data: seq<byte>, m: seq<byte>)
    requires c.IsPermutation() && IsBlock(iv)
    ensures Decrypt(c, iv, data) == Some(m) <==> data == Encrypt(c, iv, m)
  {
    DecryptEncrypt(c, iv, m);
    if Decrypt(c, iv, data) == Some(m) {
      CbcDecryptLength(c, iv, data);
      UnpadIff(CbcDecrypt(c, iv, data), m);
      CbcReencrypts(c, iv, data);
    }
  }
}
