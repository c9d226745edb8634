/** Strict UTF-8, as `str.encode` and `bytes.decode` apply it. */
module Utf8 {
  import opened Options
  import opened Bytes

  /** A continuation byte with the low six bits of `v`. */
  function Tail(v: int): Byte {
    0x80 + v % 0x40
  }

  function EncodeChar(c: char): seq<Byte> {
    var v := c as int;
    if v < 0x80 then [v]
    else if v < 0x800 then [0xC0 + v / 0x40, Tail(v)]
    else if v < 0x10000 then [0xE0 + v / 0x40 / 0x40, Tail(v / 0x40), Tail(v)]
    else [0xF0 + v / 0x40 / 0x40 / 0x40, Tail(v / 0x40 / 0x40), Tail(v / 0x40), Tail(v)]
  }

  function Encode(s: string): seq<Byte> {
    if s == "" then [] else EncodeChar(s[0]) + Encode(s[1..])
  }

  predicate Continues(b: Byte) {
    0x80 <= b < 0xC0
  }

  predicate IsScalar(v: int) {
    0 <= v < 0xD800 || 0xE000 <= v < 0x110000
  }

  datatype Decoded = Bad | Good(c: char, width: nat)

  function Scalar(v: int, least: int, width: nat): Decoded {
    if v >= least && IsScalar(v) then Good(v as char, width) else Bad
  }

  /** Six more bits after `v`. */
  function More(v: int, b: Byte): int {
    v * 0x40 + (b - 0x80)
  }

  function Lead(b: Byte, mark: int): int {
    b - mark
  }

  /** The first character; overlong forms, surrogates and stray bytes are errors. */
  function DecodeChar(b: seq<Byte>): Decoded
    requires b != []
  {
    if b[0] < 0x80 then Scalar(b[0], 0, 1)
    else if 0xC0 <= b[0] < 0xE0 && |b| >= 2 && Continues(b[1]) then
      Scalar(More(Lead(b[0], 0xC0), b[1]), 0x80, 2)
    else if 0xE0 <= b[0] < 0xF0 && |b| >= 3 && Continues(b[1]) && Continues(b[2]) then
      Scalar(More(More(Lead(b[0], 0xE0), b[1]), b[2]), 0x800, 3)
    else if 0xF0 <= b[0] < 0xF8 && |b| >= 4 && Continues(b[1]) && Continues(b[2]) && Continues(b[3]) then
      Scalar(More(More(More(Lead(b[0], 0xF0), b[1]), b[2]), b[3]), 0x10000, 4)
    else Bad
  }

  lemma DecodeCharWidth(b: seq<Byte>)
    requires b != []
    ensures DecodeChar(b).Good? ==> 0 < DecodeChar(b).width <= |b|
  {
  }

  function Decode(b: seq<Byte>): Option<string>
    decreases |b|
  {
    if b == [] then Some("")
    else
      DecodeCharWidth(b);
      match DecodeChar(b)
      case Bad => None
      case Good(c, width) =>
        match Decode(b[width..])
        case None => None
        case Some(rest) => Some([c] + rest)
  }

  lemma MoreTail(v: nat)
    ensures More(v / 0x40, Tail(v)) == v
  {
  }

  lemma DecodeEncodedShort(c: char, rest: seq<Byte>)
    requires c as int < 0x800
    ensures DecodeChar(EncodeChar(c) + rest) == Good(c, |EncodeChar(c)|)
  {
    MoreTail(c as int);
  }

  lemma DecodeEncodedThree(c: char, rest: seq<Byte>)
    requires 0x800 <= c as int < 0x10000
    ensures DecodeChar(EncodeChar(c) + rest) == Good(c, |EncodeChar(c)|)
  {
    var v := c as int;
    MoreTail(v);
    MoreTail(v / 0x40);
    var b := EncodeChar(c) + rest;
    assert 0xE0 <= b[0] < 0xF0 && Continues(b[1]) && Continues(b[2]);
    assert More(Lead(b[0], 0xE0), b[1]) == v / 0x40;
  }

  lemma DecodeEncodedFour(c: char, rest: seq<Byte>)
    requires 0x10000 <= c as int
    ensures DecodeChar(EncodeChar(c) + rest) == Good(c, |EncodeChar(c)|)
  {
    var v := c as int;
    MoreTail(v);
    MoreTail(v / 0x40);
    MoreTail(v / 0x40 / 0x40);
    var b := EncodeChar(c) + rest;
    assert 0xF0 <= b[0] < 0xF8 && Continues(b[1]) && Continues(b[2]) && Continues(b[3]);
    assert More(Lead(b[0], 0xF0), b[1]) == v / 0x40 / 0x40;
    assert More(More(Lead(b[0], 0xF0), b[1]), b[2]) == v / 0x40;
  }

  lemma DecodeEncodedChar(c: char, rest: seq<Byte>)
    ensures DecodeChar(EncodeChar(c) + rest) == Good(c, |EncodeChar(c)|)
  {
    if c as int < 0x800 {
      DecodeEncodedShort(c, rest);
    } else if c as int < 0x10000 {
      DecodeEncodedThree(c, rest);
    } else {
      DecodeEncodedFour(c, rest);
    }
  }

  lemma {:induction false} DecodeEncoded(s: string)
    ensures Decode(Encode(s)) == Some(s)
  {
    if s != "" {
      var head, tail := EncodeChar(s[0]), Encode(s[1..]);
      DecodeEncodedChar(s[0], tail);
      assert (head + tail)[|head|..] == tail;
      DecodeEncoded(s[1..]);
      assert [s[0]] + s[1..] == s;
    }
  }

  lemma {:induction false} EncodeAppend(a: string, b: string)
    ensures Encode(a + b) == Encode(a) + Encode(b)
  {
    if a == "" {
      assert a + b == b;
    } else {
      assert (a + b)[1..] == a[1..] + b;
      EncodeAppend(a[1..], b);
    }
  }
}
