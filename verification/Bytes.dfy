/** Byte strings (the model of `std::string`) and the little-endian `int32_t` that
    the GPGNet protocol copies in and out of them with `memcpy`. */
module Bytes {

  datatype Option<+T> = None | Some(value: T)

  newtype u8 = x: int | 0 <= x < 256

  type Str = seq<u8>

  type Int32 = v: int | -0x8000_0000 <= v < 0x8000_0000

  lemma Associate<T>(a: seq<T>, b: seq<T>, c: seq<T>)
    ensures (a + b) + c == a + (b + c)
  {
  }

  lemma TakeDrop<T>(a: seq<T>, b: seq<T>)
    ensures (a + b)[..|a|] == a && (a + b)[|a|..] == b
  {
  }

  lemma Extended<T>(s: seq<T>, more: seq<T>, i: nat)
    requires i <= |s|
    ensures (s + more)[..i] == s[..i] && (s + more)[i..] == s[i..] + more
  {
  }

  lemma SplitAt<T>(s: seq<T>, i: nat, j: nat)
    requires i <= j <= |s|
    ensures s[..j] == s[..i] + s[i..][..j - i]
  {
  }

  /** The bytes of a literal whose characters are all below 256. */
  function Ascii(s: string): (b: Str)
    requires forall c :: c in s ==> c as int < 256
  {
    seq(|s|, i requires 0 <= i < |s| => assert s[i] in s; s[i] as int as u8)
  }

  /** A size stored into an `int32_t`: only its low 32 bits survive. */
  function LowInt32(n: nat): (v: Int32)
    ensures n < 0x8000_0000 ==> v == n
  {
    var low := n % 0x1_0000_0000;
    if low < 0x8000_0000 then low else low - 0x1_0000_0000
  }

  /** Little-endian digits of n, lowest first. */
  function Digits(n: nat, width: nat): (b: Str)
    ensures |b| == width
    decreases n, width
  {
    if width == 0 then [] else [(n % 256) as u8] + Digits(n / 256, width - 1)
  }

  function Number(b: Str): nat {
    if b == [] then 0 else b[0] as nat + 256 * Number(b[1..])
  }

  /** The four bytes of an `int32_t` in two's complement. */
  function EncodeInt32(v: Int32): (b: Str)
    ensures |b| == 4
  {
    Digits(if v < 0 then v + 0x1_0000_0000 else v, 4)
  }

  function DecodeInt32(b: Str): (v: Int32)
    requires |b| >= 4
  {
    NumberBound(b[..4]);
    var n := Number(b[..4]);
    if n < 0x8000_0000 then n else n - 0x1_0000_0000
  }

  function Power256(width: nat): nat {
    if width == 0 then 1 else 256 * Power256(width - 1)
  }

  lemma {:induction false} NumberBound(b: Str)
    ensures Number(b) < Power256(|b|)
    ensures |b| == 4 ==> Number(b) < 0x1_0000_0000
  {
    if b == [] {
    } else {
      NumberBound(b[1..]);
    }
    assert Power256(4) == 0x1_0000_0000;
  }

  lemma {:induction false} NumberOfDigits(n: nat, width: nat)
    requires n < Power256(width)
    ensures Number(Digits(n, width)) == n
    decreases width
  {
    if width == 0 {
    } else {
      NumberOfDigits(n / 256, width - 1);
      assert Digits(n, width)[1..] == Digits(n / 256, width - 1);
    }
  }

  lemma {:induction false} DigitsOfNumber(b: Str)
    ensures Digits(Number(b), |b|) == b
  {
    if b == [] {
    } else {
      DigitsOfNumber(b[1..]);
      assert Number(b) / 256 == Number(b[1..]);
    }
  }

  lemma DecodeEncode(v: Int32, rest: Str)
    ensures DecodeInt32(EncodeInt32(v) + rest) == v
  {
    assert (EncodeInt32(v) + rest)[..4] == EncodeInt32(v);
    assert Power256(4) == 0x1_0000_0000;
    NumberOfDigits(if v < 0 then v + 0x1_0000_0000 else v, 4);
  }

  lemma EncodeDecode(b: Str)
    requires |b| >= 4
    ensures EncodeInt32(DecodeInt32(b)) == b[..4]
  {
    NumberBound(b[..4]);
    DigitsOfNumber(b[..4]);
  }

  lemma WordExtends(b: Str, more: Str)
    requires |b| >= 4
    ensures DecodeInt32(b + more) == DecodeInt32(b)
  {
    assert (b + more)[..4] == b[..4];
  }
}
