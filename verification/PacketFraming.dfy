/** MeshCore packet framing: the envelope parser, its printer and the packet hash. */
module PacketFraming {
  import opened Options
  import opened Bytes
  import opened Text

  const MAX_PATH_SIZE := 64
  const PAYLOAD_TYPE_TRACE := 9

  datatype Envelope = Envelope(
    header: Byte,
    routeType: int,
    payloadType: int,
    payloadVersion: int,
    pathByte: Byte,
    hopCount: int,
    hashSize: int,
    pathByteLen: int,
    path: seq<Byte>,
    payload: seq<Byte>,
    payloadOffset: int,
    transportCodes: Option<(nat, nat)>)

  datatype PathInfo = PathInfo(hopCount: int, hashSize: int, byteLen: int)

  /** Mode 3 is reserved, and the path may not exceed its maximum. */
  function ValidatePathByte(pathByte: Byte): Option<PathInfo> {
    var mode := pathByte / 64;
    if mode == 3 then None
    else
      var hops, size := pathByte % 64, mode + 1;
      if hops * size > MAX_PATH_SIZE then None else Some(PathInfo(hops, size, hops * size))
  }

  function Parse(raw: seq<Byte>): Option<Envelope> {
    if |raw| < 2 then None
    else
      var header := raw[0];
      var route := header % 4;
      var transport := route == 0 || route == 3;
      if transport && |raw| < 5 then None
      else
        var codes := if transport then Some((FromLittle(raw[1..3]), FromLittle(raw[3..5]))) else None;
        var offset := if transport then 5 else 1;
        if |raw| < offset + 1 then None
        else
          var pathByte := raw[offset];
          match ValidatePathByte(pathByte)
          case None => None
          case Some(info) =>
            var start := offset + 1;
            var end := start + info.byteLen;
            if |raw| < end || end >= |raw| then None
            else
              Some(Envelope(header, route, header / 4 % 16, header / 64,
                            pathByte, info.hopCount, info.hashSize, info.byteLen,
                            raw[start..end], raw[end..], end, codes))
  }

  /** The packet an envelope stands for. */
  function Print(e: Envelope): seq<Byte> {
    [e.header]
    + (if e.transportCodes.Some?
       then ToLittle(e.transportCodes.value.0, 2) + ToLittle(e.transportCodes.value.1, 2)
       else [])
    + [e.pathByte] + e.path + e.payload
  }

  /** Header fields, path fields and offset agree; hash mode 0-2; at most 64 path bytes; a payload. */
  ghost predicate WellFormed(e: Envelope) {
    && e.routeType == e.header % 4
    && e.payloadType == e.header / 4 % 16
    && e.payloadVersion == e.header / 64
    && (e.transportCodes.Some? <==> e.routeType == 0 || e.routeType == 3)
    && (e.transportCodes.Some? ==> e.transportCodes.value.0 < 65536 && e.transportCodes.value.1 < 65536)
    && e.pathByte / 64 <= 2
    && e.hopCount == e.pathByte % 64 && e.hashSize == e.pathByte / 64 + 1
    && e.pathByteLen == e.hopCount * e.hashSize <= MAX_PATH_SIZE
    && |e.path| == e.pathByteLen
    && e.payload != []
    && e.payloadOffset == (if e.transportCodes.Some? then 6 else 2) + |e.path|
  }

  lemma TwoBytes(bytes: seq<Byte>)
    requires |bytes| == 2
    ensures FromLittle(bytes) < 65536 && ToLittle(FromLittle(bytes), 2) == bytes
  {
    ToFromLittle(bytes);
    assert Pow256(2) == 65536;
  }

  lemma ParsedWellFormed(raw: seq<Byte>)
    requires Parse(raw).Some?
    ensures WellFormed(Parse(raw).value)
  {
    if Parse(raw).value.transportCodes.Some? {
      TwoBytes(raw[1..3]);
      TwoBytes(raw[3..5]);
    }
  }

  lemma Pieces(raw: seq<Byte>, offset: nat, end: nat)
    requires offset < end <= |raw|
    ensures raw == raw[..offset] + [raw[offset]] + raw[offset + 1..end] + raw[end..]
  {
  }

  /** What is accepted is well formed, and printing it gives back the bytes. */
  lemma PrintAfterParse(raw: seq<Byte>)
    requires Parse(raw).Some?
    ensures WellFormed(Parse(raw).value) && Print(Parse(raw).value) == raw
  {
    ParsedWellFormed(raw);
    var e := Parse(raw).value;
    if e.transportCodes.Some? {
      TwoBytes(raw[1..3]);
      TwoBytes(raw[3..5]);
      assert raw[..5] == [raw[0]] + (raw[1..3] + raw[3..5]);
      Pieces(raw, 5, e.payloadOffset);
    } else {
      assert raw[..1] == [raw[0]] + [];
      Pieces(raw, 1, e.payloadOffset);
    }
  }

  /** Every well-formed envelope parses back to itself. */
  lemma ParseAfterPrint(e: Envelope)
    requires WellFormed(e)
    ensures Parse(Print(e)) == Some(e)
  {
    var raw := Print(e);
    var codes := if e.transportCodes.Some?
                 then ToLittle(e.transportCodes.value.0, 2) + ToLittle(e.transportCodes.value.1, 2)
                 else [];
    if e.transportCodes.Some? {
      assert Pow256(2) == 65536;
      FromToLittle(e.transportCodes.value.0, 2);
      FromToLittle(e.transportCodes.value.1, 2);
      assert raw[1..3] == ToLittle(e.transportCodes.value.0, 2);
      assert raw[3..5] == ToLittle(e.transportCodes.value.1, 2);
    }
    var offset := 1 + |codes|;
    assert raw[offset] == e.pathByte;
    assert raw[offset + 1..offset + 1 + |e.path|] == e.path;
    assert raw[offset + 1 + |e.path|..] == e.payload;
  }

  /** Everything else is rejected. */
  lemma RejectedIff(raw: seq<Byte>)
    ensures Parse(raw).None? <==> !exists e :: WellFormed(e) && Print(e) == raw
  {
    if Parse(raw).Some? {
      PrintAfterParse(raw);
    }
    forall e | WellFormed(e) && Print(e) == raw
      ensures Parse(raw).Some?
    {
      ParseAfterPrint(e);
    }
  }

  // ----- Packet hash -----

  const ZERO_HASH := "0000000000000000"

  /** What the firmware hashes: the type, for TRACE the path byte as two bytes, and the payload. */
  function HashInput(e: Envelope): seq<Byte>
    requires 0 <= e.payloadType < 256
  {
    [e.payloadType] + (if e.payloadType == PAYLOAD_TYPE_TRACE then [e.pathByte, 0] else []) + e.payload
  }

  /** The first 16 hex digits of a digest. */
  function ShortHash(sha: seq<Byte> -> seq<Byte>, input: seq<Byte>): string {
    var digest := HexUpper(sha(input));
    if |digest| >= 16 then digest[..16] else digest
  }

  function PacketHash(sha: seq<Byte> -> seq<Byte>, raw: seq<Byte>): string {
    match Parse(raw)
    case None => ZERO_HASH
    case Some(e) => ShortHash(sha, HashInput(e))
  }

  function PayloadHash(sha: seq<Byte> -> seq<Byte>, payloadType: int, payload: seq<Byte>): string {
    ShortHash(sha, [payloadType % 256] + payload)
  }

  /** The hash depends on exactly the type and the payload; for TRACE, on the path byte as well. */
  lemma HashInputExact(a: Envelope, b: Envelope)
    requires WellFormed(a) && WellFormed(b)
    ensures HashInput(a) == HashInput(b) <==>
      && a.payloadType == b.payloadType && a.payload == b.payload
      && (a.payloadType == PAYLOAD_TYPE_TRACE ==> a.pathByte == b.pathByte)
  {
    var x, y := HashInput(a), HashInput(b);
    if x == y {
      assert x[0] == a.payloadType && y[0] == b.payloadType;
      if a.payloadType == PAYLOAD_TYPE_TRACE {
        assert x[1] == a.pathByte && y[1] == b.pathByte;
        assert x[3..] == a.payload && y[3..] == b.payload;
      } else {
        assert x[1..] == a.payload && y[1..] == b.payload;
      }
    }
  }

  /** Heard over any route, a payload has the hash computed from it alone. */
  lemma HashIgnoresRoute(sha: seq<Byte> -> seq<Byte>, raw: seq<Byte>)
    requires Parse(raw).Some? && Parse(raw).value.payloadType != PAYLOAD_TYPE_TRACE
    ensures
      var e := Parse(raw).value;
      PacketHash(sha, raw) == PayloadHash(sha, e.payloadType, e.payload)
  {
    var e := Parse(raw).value;
    assert [e.payloadType] + [] + e.payload == [e.payloadType % 256] + e.payload;
  }

  /** A stored 16-digit uppercase hash; none for missing, malformed or all-zero ones. */
  function CanonicalHash(value: Option<string>): Option<string> {
    if value.None? || value.value == "" then None
    else
      var text := Strip(value.value);
      if |text| != 16 || exists i :: 0 <= i < |text| && !IsHexDigit(text[i]) then None
      else if Upper(text) == ZERO_HASH then None
      else Some(Upper(text))
  }

  /** A computed hash is canonical as it stands, unless it is the null hash. */
  lemma ComputedHashIsCanonical(sha: seq<Byte> -> seq<Byte>, input: seq<Byte>)
    requires |sha(input)| >= 8
    ensures
      var h := ShortHash(sha, input);
      CanonicalHash(Some(h)) == if h == ZERO_HASH then None else Some(h)
  {
    var h := ShortHash(sha, input);
    HexUpperChars(sha(input));
    assert forall i :: 0 <= i < |h| ==> '0' <= h[i] <= '9' || 'A' <= h[i] <= 'F';
    assert Upper(h) == h;
  }

  lemma {:induction false} StripHex(s: string)
    requires forall i :: 0 <= i < |s| ==> IsHexDigit(s[i])
    ensures Strip(s) == s
  {
  }

  /** A canonical hash is 16 uppercase hex digits, not all zero, and is its own canonical form. */
  lemma CanonicalHashIsStable(value: Option<string>)
    requires CanonicalHash(value).Some?
    ensures
      var h := CanonicalHash(value).value;
      && |h| == 16 && h != ZERO_HASH
      && (forall i :: 0 <= i < |h| ==> '0' <= h[i] <= '9' || 'A' <= h[i] <= 'F')
      && CanonicalHash(Some(h)) == Some(h)
  {
    var h := CanonicalHash(value).value;
    StripHex(h);
    assert Upper(h) == h;
  }
}
