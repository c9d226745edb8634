/** Bytes, little-endian numbers and hex digits. */
module Bytes {
  type Byte = b: int | 0 <= b < 256

  function Pow256(n: nat): nat {
    if n == 0 then 1 else 256 * Pow256(n - 1)
  }

  /** `value.to_bytes(width, "little")` */
  function ToLittle(value: nat, width: nat): (r: seq<Byte>)
    ensures |r| == width
  {
    if width == 0 then [] else [value % 256] + ToLittle(value / 256, width - 1)
  }

  /** `int.from_bytes(bytes, "little")` */
  function FromLittle(bytes: seq<Byte>): nat {
    if bytes == [] then 0 else bytes[0] + 256 * FromLittle(bytes[1..])
  }

  lemma {:induction false} FromToLittle(value: nat, width: nat)
    requires value < Pow256(width)
    ensures FromLittle(ToLittle(value, width)) == value
  {
    if width > 0 {
      var digits := ToLittle(value, width);
      assert digits[1..] == ToLittle(value / 256, width - 1);
      FromToLittle(value / 256, width - 1);
    }
  }

  lemma {:induction false} ToFromLittle(bytes: seq<Byte>)
    ensures FromLittle(bytes) < Pow256(|bytes|)
    ensures ToLittle(FromLittle(bytes), |bytes|) == bytes
  {
    if bytes != [] {
      ToFromLittle(bytes[1..]);
      var rest := FromLittle(bytes[1..]);
      assert FromLittle(bytes) / 256 == rest && FromLittle(bytes) % 256 == bytes[0];
      assert bytes == [bytes[0]] + bytes[1..];
    }
  }

  function HexDigit(n: int): char
    requires 0 <= n < 16
  {
    "0123456789ABCDEF"[n]
  }

  /** `bytes.hex().upper()` */
  function HexUpper(bytes: seq<Byte>): (r: string)
    ensures |r| == 2 * |bytes|
  {
    if bytes == [] then ""
    else [HexDigit(bytes[0] / 16), HexDigit(bytes[0] % 16)] + HexUpper(bytes[1..])
  }

  lemma {:induction false} HexUpperChars(bytes: seq<Byte>)
    ensures forall i :: 0 <= i < |HexUpper(bytes)| ==>
      '0' <= HexUpper(bytes)[i] <= '9' || 'A' <= HexUpper(bytes)[i] <= 'F'
  {
    if bytes != [] {
      HexUpperChars(bytes[1..]);
    }
  }
}
