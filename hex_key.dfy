/**
 * `hexStr` of quic_server.cpp, which turns a destination connection id into
 * the string key of the client registry. Each byte is read through a plain
 * `char`, which is signed on MSVC, widened to `int` and written with
 * `std::hex`, `std::setw(2)` and `std::setfill('0')`. Bytes 0x00-0x7F give two
 * lowercase digits; bytes 0x80-0xFF are negative as `char` and give the eight
 * digits of their 32-bit two's complement, `ffffff80` to `ffffffff`.
 */
module HexKey {
  import opened Types

  /** `(char)b` where `char` is signed: the same bit pattern read as -128..127. */
  function SignedChar(b: byte): (c: int)
    ensures -128 <= c < 128
    ensures c % 256 == b as int
  {
    if b < 128 then b as int else b as int - 256
  }

  /** `std::hex` writes an `int` as the unsigned value of its 32-bit two's complement. */
  function Unsigned32(v: int): (u: nat)
    requires -0x8000_0000 <= v < 0x8000_0000
    ensures u < 0x1_0000_0000
    ensures (u - v) % 0x1_0000_0000 == 0
  {
    if v < 0 then v + 0x1_0000_0000 else v
  }

  /** The lowercase hexadecimal digit for `d`. */
  function HexDigit(d: nat): (c: char)
    requires d < 16
    ensures '0' <= c <= '9' || 'a' <= c <= 'f'
    ensures d < 8 <==> '0' <= c <= '7'
  {
    if d < 10 then ('0' as int + d) as char else ('a' as int + d - 10) as char
  }

  /** The digits `std::hex` prints for `n`: most significant first, no leading zeros, at least one. */
  function Hex(n: nat): (s: string)
    ensures |s| >= 1
    decreases n
  {
    if n < 16 then [HexDigit(n)] else Hex(n / 16) + [HexDigit(n % 16)]
  }

  /** `std::setw(w)` with `std::setfill(fill)`: pad on the left up to width `w`. */
  function PadLeft(s: string, w: nat, fill: char): (r: string)
    ensures |r| == if |s| < w then w else |s|
    ensures r[|r| - |s|..] == s
    ensures forall i :: 0 <= i < |r| - |s| ==> r[i] == fill
  {
    if |s| < w then seq(w - |s|, _ => fill) + s else s
  }

  /** What one iteration of the loop in `hexStr` appends for byte `b`. */
  function ByteHex(b: byte): (s: string)
    ensures |s| >= 2
  {
    PadLeft(Hex(Unsigned32(SignedChar(b))), 2, '0')
  }

  /** `hexStr(data, len)`: the concatenation of the chunks of every byte, in order. */
  function HexStr(data: seq<byte>): (s: string)
    ensures 2 * |data| <= |s| <= 8 * |data|
  {
    if data == [] then ""
    else
      ByteHexShape(data[0]);
      ByteHex(data[0]) + HexStr(data[1..])
  }

  /** Appending a digit: the digits of `16 * q + d` are those of `q` followed by `d`. */
  lemma HexAppend(q: nat, d: nat)
    requires 1 <= q && d < 16
    ensures Hex(16 * q + d) == Hex(q) + [HexDigit(d)]
  {
  }

  /** The digits of 0xFFFFFF. */
  lemma HexSixFs()
    ensures Hex(0xFFFFFF) == "ffffff"
  {
    assert Hex(0xF) == "f";
    HexAppend(0xF, 0xF);
    HexAppend(0xFF, 0xF);
    HexAppend(0xFFF, 0xF);
    HexAppend(0xFFFF, 0xF);
    HexAppend(0xFFFFF, 0xF);
  }

  /** The digits of `0xFFFFFF` followed by one more digit. */
  lemma HexSixFsThen(hi: nat)
    requires hi < 16
    ensures Hex(16 * 0xFFFFFF + hi) == "ffffff" + [HexDigit(hi)]
  {
    HexSixFs();
    HexAppend(0xFFFFFF, hi);
  }

  /** The digits of the two's complement of a negative `char`. */
  lemma HexNegativeChar(hi: nat, lo: nat)
    requires 8 <= hi < 16 && lo < 16
    ensures Hex(16 * (16 * 0xFFFFFF + hi) + lo) == "ffffff" + [HexDigit(hi), HexDigit(lo)]
  {
    var q := 16 * 0xFFFFFF + hi;
    HexSixFsThen(hi);
    HexAppend(q, lo);
  }

  /** The chunk for `b` written out: two digits below 0x80, `ffffff` and two digits from 0x80. */
  function Chunk(b: byte): (s: string)
    ensures |s| == if b < 128 then 2 else 8
  {
    var digits := [HexDigit(b as nat / 16), HexDigit(b as nat % 16)];
    if b < 128 then digits else "ffffff" + digits
  }

  /** Each byte's chunk is the written-out one. */
  lemma ByteHexShape(b: byte)
    ensures ByteHex(b) == Chunk(b)
  {
    var hi, lo := b as nat / 16, b as nat % 16;
    var n := Unsigned32(SignedChar(b));
    assert b as nat == 16 * hi + lo;
    if b < 16 {
      assert n == lo && hi == 0;
      assert Hex(n) == [HexDigit(lo)];
    } else if b < 128 {
      assert n == 16 * hi + lo;
      HexAppend(hi, lo);
    } else {
      assert n == 16 * (16 * 0xFFFFFF + hi) + lo;
      HexNegativeChar(hi, lo);
    }
  }

  /** Distinct digits are distinct characters. */
  lemma HexDigitInjective(d: nat, e: nat)
    requires d < 16 && e < 16 && HexDigit(d) == HexDigit(e)
    ensures d == e
  {
  }

  /** Distinct bytes have distinct written-out chunks. */
  lemma ChunkInjective(a: byte, b: byte)
    requires Chunk(a) == Chunk(b)
    ensures a == b
  {
    var k := Chunk(a);
    var i := |k| - 2;
    assert k[i] == HexDigit(a as nat / 16) && k[i] == HexDigit(b as nat / 16);
    assert k[i + 1] == HexDigit(a as nat % 16) && k[i + 1] == HexDigit(b as nat % 16);
    HexDigitInjective(a as nat / 16, b as nat / 16);
    HexDigitInjective(a as nat % 16, b as nat % 16);
  }

  /** Distinct bytes give distinct chunks. */
  lemma ByteHexInjective(a: byte, b: byte)
    requires ByteHex(a) == ByteHex(b)
    ensures a == b
  {
    ByteHexShape(a);
    ByteHexShape(b);
    ChunkInjective(a, b);
  }

  /** The first character of a written-out chunk tells a short chunk from a long one. */
  lemma ChunkFirstChar(b: byte)
    ensures b < 128 <==> '0' <= Chunk(b)[0] <= '7'
    ensures b >= 128 <==> Chunk(b)[0] == 'f'
  {
  }

  /** The chunk code is prefix-free: the first character alone tells a short chunk from a long one. */
  lemma ByteHexFirstChar(b: byte)
    ensures |ByteHex(b)| == if b < 128 then 2 else 8
    ensures b < 128 <==> '0' <= ByteHex(b)[0] <= '7'
    ensures b >= 128 <==> ByteHex(b)[0] == 'f'
  {
    ByteHexShape(b);
    ChunkFirstChar(b);
  }

  /** `hexStr` is injective: distinct connection ids always give distinct registry keys. */
  lemma {:induction false} HexStrInjective(a: seq<byte>, b: seq<byte>)
    requires HexStr(a) == HexStr(b)
    ensures a == b
    decreases |a|
  {
    if a == [] || b == [] {
      assert |HexStr(a)| == 0 || |HexStr(b)| == 0;
    } else {
      var s := HexStr(a);
      ByteHexFirstChar(a[0]);
      ByteHexFirstChar(b[0]);
      var n := |ByteHex(a[0])|;
      assert s[0] == ByteHex(a[0])[0] && s[0] == ByteHex(b[0])[0];
      assert n == |ByteHex(b[0])|;
      assert ByteHex(a[0]) == s[..n] == ByteHex(b[0]);
      ByteHexInjective(a[0], b[0]);
      assert HexStr(a[1..]) == s[n..] == HexStr(b[1..]);
      HexStrInjective(a[1..], b[1..]);
      assert a == [a[0]] + a[1..] && b == [b[0]] + b[1..];
    }
  }

  /** `c` is a lowercase hexadecimal digit. */
  predicate LowerHex(c: char)
  {
    '0' <= c <= '9' || 'a' <= c <= 'f'
  }

  /** Every character of `s` is a lowercase hexadecimal digit. */
  predicate AllLowerHex(s: string)
  {
    forall i :: 0 <= i < |s| ==> LowerHex(s[i])
  }

  /** Two strings of lowercase digits make one. */
  lemma AllLowerHexAppend(k: string, t: string)
    requires AllLowerHex(k) && AllLowerHex(t)
    ensures AllLowerHex(k + t)
  {
    forall i | 0 <= i < |k + t|
      ensures LowerHex((k + t)[i])
    {
      if i >= |k| {
        assert (k + t)[i] == t[i - |k|];
      }
    }
  }

  /** Every character of a written-out chunk is a lowercase hexadecimal digit. */
  lemma ChunkAlphabet(b: byte)
    ensures AllLowerHex(Chunk(b))
  {
    var digits := [HexDigit(b as nat / 16), HexDigit(b as nat % 16)];
    assert AllLowerHex(digits);
    if b >= 128 {
      assert AllLowerHex("ffffff");
      AllLowerHexAppend("ffffff", digits);
    }
  }

  /** Every character of a byte's chunk is a lowercase hexadecimal digit. */
  lemma ByteHexAlphabet(b: byte)
    ensures AllLowerHex(ByteHex(b))
  {
    ByteHexShape(b);
    ChunkAlphabet(b);
  }

  /** Every character of a key is a lowercase hexadecimal digit. */
  lemma {:induction false} HexStrAlphabet(data: seq<byte>)
    ensures AllLowerHex(HexStr(data))
  {
    if data != [] {
      ByteHexAlphabet(data[0]);
      HexStrAlphabet(data[1..]);
      AllLowerHexAppend(ByteHex(data[0]), HexStr(data[1..]));
    }
  }
}
