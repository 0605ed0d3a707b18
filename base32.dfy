/**
 * Base 32 encoding with the standard alphabet, as defined in section 6 of
 * RFC 4648, with the `=` padding omitted (section 3.2 allows leaving it out).
 *
 * The input is read as one stream of bits, most significant bit of each
 * byte first; zero bits are appended to complete the last 5-bit group; each
 * 5-bit group selects one character. The decoder is the inverse, used here
 * to show that encoding loses nothing.
 */
module Base32 {
  import opened Wrappers

  type Byte = x: int | 0 <= x < 256

  function Pow2(w: nat): (p: nat)
    ensures p >= 1
  {
    if w == 0 then 1 else 2 * Pow2(w - 1)
  }

  function Bit(b: bool): nat
  {
    if b then 1 else 0
  }

  /** The `w` low bits of `n`, most significant first. */
  function ToBits(n: nat, w: nat): (bits: seq<bool>)
    ensures |bits| == w
  {
    if w == 0 then [] else ToBits(n / 2, w - 1) + [n % 2 == 1]
  }

  /** The number a bit string denotes, most significant bit first. */
  function FromBits(bits: seq<bool>): (n: nat)
    ensures n < Pow2(|bits|)
  {
    if bits == [] then 0 else 2 * FromBits(bits[..|bits| - 1]) + Bit(bits[|bits| - 1])
  }

  lemma Halves(m: nat, b: nat)
    requires b < 2
    ensures (2 * m + b) / 2 == m && (2 * m + b) % 2 == b
  {
  }

  lemma {:induction false} FromToBits(n: nat, w: nat)
    requires n < Pow2(w)
    ensures FromBits(ToBits(n, w)) == n
  {
    if w > 0 {
      var half, low := n / 2, n % 2;
      assert n == 2 * half + low;
      assert half < Pow2(w - 1);
      FromToBits(half, w - 1);
      var bits := ToBits(n, w);
      assert bits == ToBits(half, w - 1) + [low == 1];
      assert bits[..|bits| - 1] == ToBits(half, w - 1);
      assert Bit(bits[|bits| - 1]) == low;
    }
  }

  lemma {:induction false} ToFromBits(bits: seq<bool>)
    ensures ToBits(FromBits(bits), |bits|) == bits
  {
    if bits != [] {
      var init, last := bits[..|bits| - 1], bits[|bits| - 1];
      ToFromBits(init);
      var m := FromBits(init);
      var n := FromBits(bits);
      assert n == 2 * m + Bit(last);
      Halves(m, Bit(last));
      assert ToBits(n, |bits|) == ToBits(m, |init|) + [Bit(last) == 1];
      assert bits == init + [last];
    }
  }

  /** The bit stream of a byte string. */
  function Bits(bytes: seq<Byte>): (bits: seq<bool>)
    ensures |bits| == 8 * |bytes|
  {
    if bytes == [] then [] else ToBits(bytes[0], 8) + Bits(bytes[1..])
  }

  function Zeros(n: nat): (z: seq<bool>)
    ensures |z| == n && forall i :: 0 <= i < n ==> !z[i]
  {
    seq(n, i => false)
  }

  /** The RFC 4648 base 32 alphabet: values 0..25 are A..Z, 26..31 are 2..7. */
  function EncodeChar(v: nat): (c: char)
    requires v < 32
    ensures IsBase32Char(c) && DecodeChar(c) == v
  {
    if v < 26 then ('A' as int + v) as char else ('2' as int + v - 26) as char
  }

  predicate IsBase32Char(c: char)
  {
    'A' <= c <= 'Z' || '2' <= c <= '7'
  }

  predicate IsBase32(s: string)
  {
    forall i :: 0 <= i < |s| ==> IsBase32Char(s[i])
  }

  function DecodeChar(c: char): (v: nat)
    requires IsBase32Char(c)
    ensures v < 32
  {
    if 'A' <= c <= 'Z' then c as int - 'A' as int else c as int - '2' as int + 26
  }

  /**
   * One character per 5 bits; a final group of fewer than 5 bits is
   * completed with zero bits.
   */
  function EncodeBits(bits: seq<bool>): (s: string)
    ensures |s| == (|bits| + 4) / 5
    ensures IsBase32(s)
    decreases |bits|
  {
    if bits == [] then []
    else if |bits| < 5 then [EncodeChar(FromBits(bits + Zeros(5 - |bits|)))]
    else [EncodeChar(FromBits(bits[..5]))] + EncodeBits(bits[5..])
  }

  /** `base32.StdEncoding.WithPadding(base32.NoPadding).EncodeToString(bytes)`. */
  function EncodeToString(bytes: seq<Byte>): (s: string)
    ensures |s| == (8 * |bytes| + 4) / 5
    ensures IsBase32(s)
  {
    EncodeBits(Bits(bytes))
  }

  /** The bits the characters stand for, 5 per character. */
  function DecodeBits(s: string): (bits: seq<bool>)
    requires IsBase32(s)
    ensures |bits| == 5 * |s|
  {
    if s == [] then [] else ToBits(DecodeChar(s[0]), 5) + DecodeBits(s[1..])
  }

  /** Whole bytes of a bit stream; fewer than 8 trailing bits are dropped. */
  function BitsToBytes(bits: seq<bool>): seq<Byte>
    decreases |bits|
  {
    if |bits| < 8 then [] else [FromBits(bits[..8]) as Byte] + BitsToBytes(bits[8..])
  }

  function DecodeString(s: string): Option<seq<Byte>>
  {
    if IsBase32(s) then Some(BitsToBytes(DecodeBits(s))) else None
  }

  /** Decoding one character gives back the 5-bit group it encodes. */
  lemma DecodeGroup(g: seq<bool>)
    requires |g| == 5
    ensures DecodeBits([EncodeChar(FromBits(g))]) == g
  {
    ToFromBits(g);
    var s := [EncodeChar(FromBits(g))];
    assert DecodeBits(s) == ToBits(DecodeChar(s[0]), 5) + DecodeBits(s[1..]);
  }

  /** Decoding distributes over concatenation of encoded text. */
  lemma {:induction false} DecodeBitsAppend(s: string, t: string)
    requires IsBase32(s) && IsBase32(t)
    ensures IsBase32(s + t) && DecodeBits(s + t) == DecodeBits(s) + DecodeBits(t)
  {
    if s != [] {
      assert (s + t)[1..] == s[1..] + t;
      DecodeBitsAppend(s[1..], t);
      assert (s + t)[0] == s[0];
      assert DecodeBits(s + t) == ToBits(DecodeChar(s[0]), 5) + DecodeBits(s[1..] + t);
      assert DecodeBits(s) == ToBits(DecodeChar(s[0]), 5) + DecodeBits(s[1..]);
    } else {
      assert s + t == t;
    }
  }

  /** Zero bits appended to complete the last 5-bit group. */
  function Fill(n: nat): (k: nat)
    ensures k < 5 && (n + k) % 5 == 0
  {
    (5 - n % 5) % 5
  }

  lemma FillStep(n: nat)
    ensures n >= 5 ==> Fill(n) == Fill(n - 5)
    ensures 0 < n < 5 ==> Fill(n) == 5 - n
    ensures Fill(0) == 0
  {
  }

  /** Decoding the characters gives back the bits, followed by the zero fill. */
  lemma {:induction false} DecodeEncodeBits(bits: seq<bool>)
    ensures DecodeBits(EncodeBits(bits)) == bits + Zeros(Fill(|bits|))
    decreases |bits|
  {
    FillStep(|bits|);
    if bits == [] {
      assert Zeros(0) == [];
    } else if |bits| < 5 {
      DecodeGroup(bits + Zeros(5 - |bits|));
    } else {
      var g, rest := bits[..5], bits[5..];
      var head := [EncodeChar(FromBits(g))];
      assert EncodeBits(bits) == head + EncodeBits(rest);
      DecodeGroup(g);
      DecodeEncodeBits(rest);
      DecodeBitsAppend(head, EncodeBits(rest));
      assert bits + Zeros(Fill(|bits|)) == g + (rest + Zeros(Fill(|rest|)));
    }
  }

  /** Decoding a byte stream followed by fewer than 8 extra bits gives back the bytes. */
  lemma {:induction false} BitsToBytesOfBits(bytes: seq<Byte>, extra: seq<bool>)
    requires |extra| < 8
    ensures BitsToBytes(Bits(bytes) + extra) == bytes
  {
    if bytes != [] {
      var stream := Bits(bytes) + extra;
      var head := ToBits(bytes[0], 8);
      assert Bits(bytes) == head + Bits(bytes[1..]);
      assert stream[..8] == head;
      assert stream[8..] == Bits(bytes[1..]) + extra;
      FromToBits(bytes[0], 8);
      BitsToBytesOfBits(bytes[1..], extra);
      assert [bytes[0]] + bytes[1..] == bytes;
    }
  }

  /** Encoding loses nothing: decoding gives back the bytes. */
  lemma DecodeEncode(bytes: seq<Byte>)
    ensures DecodeString(EncodeToString(bytes)) == Some(bytes)
  {
    var bits := Bits(bytes);
    DecodeEncodeBits(bits);
    BitsToBytesOfBits(bytes, Zeros(Fill(|bits|)));
  }

  /** Distinct byte strings have distinct encodings. */
  lemma EncodeInjective(a: seq<Byte>, b: seq<Byte>)
    requires EncodeToString(a) == EncodeToString(b)
    ensures a == b
  {
    DecodeEncode(a);
    DecodeEncode(b);
  }

  /** A 16-byte input encodes to 26 characters. */
  lemma SixteenBytes(bytes: seq<Byte>)
    requires |bytes| == 16
    ensures |EncodeToString(bytes)| == 26
  {
  }
}
