/**
 Byte streams. A file is a sequence of C++ `char`s; integers are written little-endian, as the supported platforms do.
 A reader consumes from the front and reports what it leaves.
 */
module Bytes {
  import opened Results
  import opened Values

  type Read<T> = Result<(T, string)>

  /** The low `width` bytes of `n`: the truncation of a cast to a fixed-width unsigned integer is explicit. */
  function LittleEndian(n: nat, width: nat): (s: string)
    ensures |s| == width
  {
    if width == 0 then "" else [(n % 256) as char] + LittleEndian(n / 256, width - 1)
  }

  /** A byte is the low eight bits of a character. */
  function FromLittleEndian(s: string): (n: nat)
    ensures n < Power256(|s|)
  {
    if s == "" then 0 else s[0] as nat % 256 + 256 * FromLittleEndian(s[1..])
  }

  function Power256(width: nat): nat {
    if width == 0 then 1 else 256 * Power256(width - 1)
  }

  lemma {:induction false} LittleEndianRoundTrip(n: nat, width: nat)
    requires n < Power256(width)
    ensures FromLittleEndian(LittleEndian(n, width)) == n
  {
    if width > 0 {
      assert n / 256 < Power256(width - 1);
      LittleEndianRoundTrip(n / 256, width - 1);
      assert LittleEndian(n, width)[1..] == LittleEndian(n / 256, width - 1);
    }
  }

  lemma Power256Values()
    ensures Power256(1) == 256 && Power256(4) == 0x1_0000_0000 && Power256(8) == TWO_64
  {
    assert Power256(2) == 0x1_0000 && Power256(3) == 0x100_0000;
    assert Power256(5) == 0x100_0000_0000 && Power256(6) == 0x1_0000_0000_0000 && Power256(7) == 0x100_0000_0000_0000;
  }

  /** `readBytes`: exactly `n` bytes, or the stream is too short. */
  function ReadBytes(input: string, n: nat): (r: Read<string>)
    ensures r.Ok? ==> |r.value.0| == n && input == r.value.0 + r.value.1
    ensures r.Ok? <==> n <= |input|
  {
    if n <= |input| then Ok((input[..n], input[n..])) else Err
  }

  function ReadUnsigned(input: string, width: nat): (r: Read<nat>)
    ensures r.Ok? ==> |r.value.1| == |input| - width && r.value.0 < Power256(width)
    ensures r.Ok? <==> width <= |input|
  {
    var bytes :- ReadBytes(input, width);
    Ok((FromLittleEndian(bytes.0), bytes.1))
  }

  /** `writeString`: a 64-bit length and the characters. */
  function EncodeString(s: string): string {
    LittleEndian(|s|, 8) + s
  }

  function ReadString(input: string): (r: Read<string>)
    ensures r.Ok? ==> |r.value.1| <= |input| - 8
  {
    var size :- ReadUnsigned(input, 8);
    ReadBytes(size.1, size.0)
  }

  lemma ReadBytesBack(s: string, rest: string)
    ensures ReadBytes(s + rest, |s|) == Ok((s, rest))
  {
    assert (s + rest)[..|s|] == s && (s + rest)[|s|..] == rest;
  }

  lemma ReadUnsignedBack(n: nat, width: nat, rest: string)
    requires n < Power256(width)
    ensures ReadUnsigned(LittleEndian(n, width) + rest, width) == Ok((n, rest))
  {
    LittleEndianRoundTrip(n, width);
    ReadBytesBack(LittleEndian(n, width), rest);
  }

  lemma ReadStringBack(s: string, rest: string)
    requires |s| < TWO_64
    ensures ReadString(EncodeString(s) + rest) == Ok((s, rest))
  {
    Power256Values();
    assert EncodeString(s) + rest == LittleEndian(|s|, 8) + (s + rest);
    ReadUnsignedBack(|s|, 8, s + rest);
    ReadBytesBack(s, rest);
  }

  /** Two's complement. */
  function ToUnsigned(i: Int64): nat {
    if i < 0 then i + TWO_64 else i
  }

  function ToSigned(n: nat): Int64 {
    var low := n % TWO_64;
    if low < TWO_63 then low else low - TWO_64
  }
}
