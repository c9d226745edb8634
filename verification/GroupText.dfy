/**
 Channel messages: encryption for sending, decryption of what is heard, the sender prefix,
 and the packet hash predicted for an outgoing message.
 */
module GroupText {
  import opened Options
  import opened Bytes
  import opened Utf8
  import PacketFraming

  const PAYLOAD_TYPE_GROUP_TEXT := 5
  const MAX_UTF8 := 160
  const BLOCK: nat := 16

  /** The primitives: a block cipher, a keyed hash and a hash. */
  datatype Crypto = Crypto(
    encrypt: (seq<Byte>, seq<Byte>) -> seq<Byte>,
    decrypt: (seq<Byte>, seq<Byte>) -> seq<Byte>,
    mac: (seq<Byte>, seq<Byte>) -> seq<Byte>,
    sha: seq<Byte> -> seq<Byte>)

  /** Decryption undoes encryption block by block, and hashes have their lengths. */
  ghost predicate Lawful(c: Crypto) {
    && (forall k, b :: |b| == BLOCK ==> |c.encrypt(k, b)| == BLOCK)
    && (forall k, b :: |b| == BLOCK ==> c.decrypt(k, c.encrypt(k, b)) == b)
    && (forall k, m :: |c.mac(k, m)| == 32)
    && (forall m :: |c.sha(m)| == 32)
  }

  predicate KeyOk(key: seq<Byte>) {
    |key| == 16 || |key| == 24 || |key| == 32
  }

  function Zeros(n: nat): (r: seq<Byte>)
    ensures |r| == n
  {
    seq(n, i => 0)
  }

  /** ECB: every block on its own. */
  function Ecb(f: (seq<Byte>, seq<Byte>) -> seq<Byte>, key: seq<Byte>, data: seq<Byte>): seq<Byte> {
    if |data| < BLOCK then [] else f(key, data[..BLOCK]) + Ecb(f, key, data[BLOCK..])
  }

  function Mac(c: Crypto, key: seq<Byte>, ciphertext: seq<Byte>): seq<Byte> {
    var digest := c.mac(key + Zeros(16), ciphertext);
    if |digest| >= 2 then digest[..2] else digest
  }

  function ChannelHash(c: Crypto, key: seq<Byte>): seq<Byte> {
    var digest := c.sha(key);
    if |digest| >= 1 then digest[..1] else digest
  }

  /** The padded plaintext: there is always some padding after the terminator. */
  function Plaintext(timestamp: nat, text: string, flags: Byte): seq<Byte> {
    var body := ToLittle(timestamp, 4) + [flags] + Encode(text) + [0];
    body + Zeros(BLOCK - |body| % BLOCK)
  }

  /** Fails, as the library calls do, on a bad key length or numbers that do not fit. */
  function EncryptGroupText(c: Crypto, key: seq<Byte>, timestamp: int, text: string, flags: int): Option<seq<Byte>> {
    if !KeyOk(key) || !(0 <= timestamp < 0x1_0000_0000) || !(0 <= flags < 256) then None
    else
      var ciphertext := Ecb(c.encrypt, key, Plaintext(timestamp, text, flags));
      Some(ChannelHash(c, key) + Mac(c, key, ciphertext) + ciphertext)
  }

  function DecryptBlob(c: Crypto, payload: seq<Byte>, key: seq<Byte>): Option<seq<Byte>> {
    if |payload| < 3 then None
    else
      var ciphertext := payload[3..];
      if |ciphertext| == 0 || |ciphertext| % BLOCK != 0 then None
      else if Mac(c, key, ciphertext) != payload[1..3] then None
      else if !KeyOk(key) then None
      else Some(Ecb(c.decrypt, key, ciphertext))
  }

  // ----- Sender prefix -----

  /** The first occurrence of `": "`, or the length of the text. */
  function FindSeparator(text: string, from: nat): (p: nat)
    requires from <= |text|
    ensures from <= p <= |text|
    ensures p < |text| ==> p + 1 < |text| && text[p] == ':' && text[p + 1] == ' '
    ensures forall q :: from <= q < p && q + 1 < |text| ==> !(text[q] == ':' && text[q + 1] == ' ')
    decreases |text| - from
  {
    if from + 1 >= |text| then |text|
    else if text[from] == ':' && text[from + 1] == ' ' then from
    else FindSeparator(text, from + 1)
  }

  predicate BadInName(c: char) {
    c == ':' || c == '[' || c == ']' || c == '\0'
  }

  datatype Split = Split(sender: Option<string>, message: string)

  predicate GoodName(s: string) {
    0 < |s| < 50 && forall i :: 0 <= i < |s| ==> !BadInName(s[i])
  }

  /** The splitter of messages that waited on the radio. */
  function SplitPending(text: string): Split {
    var p := FindSeparator(text, 0);
    if p < |text| && 0 < p < 50 && forall i :: 0 <= i < p ==> !BadInName(text[i])
    then Split(Some(text[..p]), text[p + 2..])
    else Split(None, text)
  }

  /** `text.find(": ")`: minus one if there is none. */
  function Find(text: string): int {
    if |text| < 2 then -1
    else if text[0] == ':' && text[1] == ' ' then 0
    else
      var rest := Find(text[1..]);
      if rest < 0 then -1 else rest + 1
  }

  function Take(text: string, n: int): string {
    if 0 <= n <= |text| then text[..n] else text
  }

  function Drop(text: string, n: int): string {
    if 0 <= n <= |text| then text[n..] else ""
  }

  /** The splitter of the decoder. */
  function SplitSender(text: string): Split {
    var colon := Find(text);
    if 0 < colon < 50 then
      var potential := Take(text, colon);
      if exists i :: 0 <= i < |potential| && BadInName(potential[i]) then Split(None, text)
      else Split(Some(potential), Drop(text, colon + 2))
    else Split(None, text)
  }

  /** A name, the separator and a message: the text is nothing else. */
  ghost predicate Prefixed(text: string, sender: string, message: string) {
    GoodName(sender) && text == sender + ": " + message
  }

  lemma {:induction false} FindFinds(text: string)
    ensures
      var p := Find(text);
      && -1 <= p
      && (p >= 0 ==> p + 1 < |text| && text[p] == ':' && text[p + 1] == ' ')
      && forall q :: 0 <= q && q + 1 < |text| && (p < 0 || q < p) ==> !(text[q] == ':' && text[q + 1] == ' ')
  {
    if |text| >= 2 && !(text[0] == ':' && text[1] == ' ') {
      FindFinds(text[1..]);
      forall q | 0 <= q && q + 1 < |text| && (Find(text) < 0 || q < Find(text))
        ensures !(text[q] == ':' && text[q + 1] == ' ')
      {
        if q > 0 {
          assert text[1..][q - 1] == text[q] && text[1..][q] == text[q + 1];
        }
      }
    }
  }

  /** The first separator of a prefixed text follows its name, which has no colon. */
  lemma SeparatorOf(text: string, sender: string, message: string)
    requires Prefixed(text, sender, message)
    ensures text[|sender|] == ':' && text[|sender| + 1] == ' '
    ensures text[..|sender|] == sender && text[|sender| + 2..] == message
    ensures forall q :: 0 <= q < |sender| ==> text[q] != ':'
  {
    assert forall q :: 0 <= q < |sender| ==> text[q] == sender[q] && !BadInName(sender[q]);
  }

  /** The decoder finds a sender exactly in texts of that shape. */
  lemma DecoderSplitIff(text: string, sender: string, message: string)
    ensures SplitSender(text) == Split(Some(sender), message) <==> Prefixed(text, sender, message)
  {
    var p := Find(text);
    FindFinds(text);
    if Prefixed(text, sender, message) {
      SeparatorOf(text, sender, message);
      assert p == |sender|;
    }
    if SplitSender(text) == Split(Some(sender), message) {
      assert text == text[..p] + ": " + text[p + 2..];
    }
  }

  /** So does the other splitter. */
  lemma PendingSplitIff(text: string, sender: string, message: string)
    ensures SplitPending(text) == Split(Some(sender), message) <==> Prefixed(text, sender, message)
  {
    var p := FindSeparator(text, 0);
    if Prefixed(text, sender, message) {
      SeparatorOf(text, sender, message);
      assert p == |sender|;
    }
    if SplitPending(text) == Split(Some(sender), message) {
      assert text == text[..p] + ": " + text[p + 2..];
      assert forall i :: 0 <= i < p ==> text[..p][i] == text[i];
    }
  }

  /** The two readers of channel text agree on every text. */
  lemma SplittersAgree(text: string)
    ensures SplitSender(text) == SplitPending(text)
  {
    var a, b := SplitSender(text), SplitPending(text);
    if a.sender.Some? {
      DecoderSplitIff(text, a.sender.value, a.message);
      PendingSplitIff(text, a.sender.value, a.message);
    } else if b.sender.Some? {
      DecoderSplitIff(text, b.sender.value, b.message);
      PendingSplitIff(text, b.sender.value, b.message);
    }
  }

  /** The text a fanout module shows for a channel message with the given sender name. */
  function FanoutText(senderName: Option<string>, text: string): string {
    if senderName.None? || senderName.value == "" then text
    else
      var p := FindSeparator(text, 0);
      if p < |text| && text[..p] == senderName.value then text[p + 2..] else text
  }

  lemma SplitRejoins(text: string)
    ensures
      match SplitSender(text)
      case Split(Some(sender), message) => sender != "" && sender + ": " + message == text
      case Split(None, message) => message == text
  {
    var s := SplitSender(text);
    if s.sender.Some? {
      DecoderSplitIff(text, s.sender.value, s.message);
    }
  }

  /** Stripping the detected sender leaves exactly the detected message. */
  lemma FanoutStripsPrefix(text: string)
    ensures FanoutText(SplitSender(text).sender, text) == SplitSender(text).message
  {
    SplittersAgree(text);
  }

  // ----- Decryption -----

  datatype Decrypted = Decrypted(
    timestamp: nat, flags: Byte, sender: Option<string>, message: string, channelHash: Byte)

  function UntilNul(text: string): string {
    if text == "" || text[0] == '\0' then "" else [text[0]] + UntilNul(text[1..])
  }

  function DecryptGroupText(c: Crypto, payload: seq<Byte>, key: seq<Byte>): Option<Decrypted> {
    match DecryptBlob(c, payload, key)
    case None => None
    case Some(plain) =>
      if |plain| < 5 || payload == [] then None
      else
        match Decode(plain[5..])
        case None => None
        case Some(text) =>
          var s := SplitSender(UntilNul(text));
          Some(Decrypted(FromLittle(plain[0..4]), plain[4], s.sender, s.message, payload[0]))
  }

  lemma {:induction false} EcbInverts(c: Crypto, key: seq<Byte>, data: seq<Byte>)
    requires Lawful(c) && |data| % BLOCK == 0
    ensures |Ecb(c.encrypt, key, data)| == |data|
    ensures Ecb(c.decrypt, key, Ecb(c.encrypt, key, data)) == data
  {
    if |data| >= BLOCK {
      var head, tail := data[..BLOCK], data[BLOCK..];
      EcbInverts(c, key, tail);
      var block, rest := c.encrypt(key, head), Ecb(c.encrypt, key, tail);
      assert (block + rest)[..BLOCK] == block && (block + rest)[BLOCK..] == rest;
      assert head + tail == data;
    }
  }

  function Nuls(n: nat): string {
    if n == 0 then "" else "\0" + Nuls(n - 1)
  }

  lemma {:induction false} NulsEncoded(n: nat)
    ensures Encode(Nuls(n)) == Zeros(n)
  {
    if n > 0 {
      NulsEncoded(n - 1);
      assert Nuls(n)[0] == '\0' && Nuls(n)[1..] == Nuls(n - 1);
      assert Zeros(n) == [0] + Zeros(n - 1);
    }
  }

  lemma {:induction false} UntilNulStops(text: string, n: nat)
    requires n > 0
    ensures UntilNul(text + Nuls(n)) == UntilNul(text)
  {
    if text == "" {
      assert text + Nuls(n) == Nuls(n);
      assert Nuls(n)[0] == '\0';
    } else {
      assert (text + Nuls(n))[1..] == text[1..] + Nuls(n);
      UntilNulStops(text[1..], n);
    }
  }

  lemma {:induction false} NulFreeKept(text: string)
    requires '\0' !in text
    ensures UntilNul(text) == text
  {
    if text != "" {
      NulFreeKept(text[1..]);
      assert [text[0]] + text[1..] == text;
    }
  }

  /** Four bytes of time, one of flags, then the text and at least two zero bytes. */
  lemma PlaintextLayout(timestamp: nat, text: string, flags: Byte)
    ensures
      var plain := Plaintext(timestamp, text, flags);
      && |plain| % BLOCK == 0 && |plain| >= BLOCK
      && plain[0..4] == ToLittle(timestamp, 4) && plain[4] == flags
      && |plain| > 5 + |Encode(text)|
      && plain[5..] == Encode(text) + Zeros(|plain| - 5 - |Encode(text)|)
  {
    var body := ToLittle(timestamp, 4) + [flags] + Encode(text) + [0];
    var plain := Plaintext(timestamp, text, flags);
    assert plain == body + Zeros(|plain| - |body|);
  }

  /** The plaintext's fields, read back. */
  lemma PlaintextFields(timestamp: nat, text: string, flags: Byte)
    requires timestamp < 0x1_0000_0000
    ensures
      var plain := Plaintext(timestamp, text, flags);
      && |plain| % BLOCK == 0 && |plain| >= BLOCK
      && FromLittle(plain[0..4]) == timestamp && plain[4] == flags
      && Decode(plain[5..]).Some?
      && UntilNul(Decode(plain[5..]).value) == UntilNul(text)
  {
    PlaintextLayout(timestamp, text, flags);
    var pad := |Plaintext(timestamp, text, flags)| - 5 - |Encode(text)|;
    assert Pow256(4) == 0x1_0000_0000 by { assert Pow256(2) == 65536; }
    FromToLittle(timestamp, 4);
    NulsEncoded(pad);
    EncodeAppend(text, Nuls(pad));
    DecodeEncoded(text + Nuls(pad));
    UntilNulStops(text, pad);
  }

  /** Framing: what is encrypted passes the length and MAC checks and decrypts to its plaintext. */
  lemma BlobRoundTrip(c: Crypto, key: seq<Byte>, plain: seq<Byte>)
    requires Lawful(c) && KeyOk(key) && |plain| % BLOCK == 0 && |plain| >= BLOCK
    ensures
      var ciphertext := Ecb(c.encrypt, key, plain);
      var payload := ChannelHash(c, key) + Mac(c, key, ciphertext) + ciphertext;
      && DecryptBlob(c, payload, key) == Some(plain)
      && payload != [] && payload[0] == c.sha(key)[0]
  {
    var ciphertext := Ecb(c.encrypt, key, plain);
    EcbInverts(c, key, plain);
    var mac := Mac(c, key, ciphertext);
    var payload := ChannelHash(c, key) + mac + ciphertext;
    assert |ChannelHash(c, key)| == 1 && |mac| == 2;
    assert payload[1..3] == mac && payload[3..] == ciphertext;
  }

  /**
   Decryption undoes encryption: same timestamp and flags, and the text up to its first NUL,
   split into sender and message.
   */
  lemma GroupTextRoundTrip(c: Crypto, key: seq<Byte>, timestamp: int, text: string, flags: int)
    requires Lawful(c) && EncryptGroupText(c, key, timestamp, text, flags).Some?
    ensures
      var payload := EncryptGroupText(c, key, timestamp, text, flags).value;
      var s := SplitSender(UntilNul(text));
      DecryptGroupText(c, payload, key)
        == Some(Decrypted(timestamp, flags, s.sender, s.message, c.sha(key)[0]))
  {
    PlaintextFields(timestamp, text, flags);
    BlobRoundTrip(c, key, Plaintext(timestamp, text, flags));
  }

  /** For NUL-free text nothing is lost: sender and message rejoin, and fanout shows the message. */
  lemma NulFreeRoundTrip(c: Crypto, key: seq<Byte>, timestamp: int, text: string, flags: int)
    requires Lawful(c) && EncryptGroupText(c, key, timestamp, text, flags).Some? && '\0' !in text
    ensures
      var d := DecryptGroupText(c, EncryptGroupText(c, key, timestamp, text, flags).value, key);
      && d.Some? && d.value.timestamp == timestamp && d.value.flags == flags
      && (d.value.sender.None? ==> d.value.message == text)
      && (d.value.sender.Some? ==> d.value.sender.value + ": " + d.value.message == text)
      && FanoutText(d.value.sender, text) == d.value.message
      && SplitPending(text) == Split(d.value.sender, d.value.message)
  {
    SplittersAgree(text);
    GroupTextRoundTrip(c, key, timestamp, text, flags);
    NulFreeKept(text);
    SplitRejoins(text);
    FanoutStripsPrefix(text);
  }

  // ----- Predicted packet hash -----

  /** The hash of an outgoing channel message, if it can be reproduced. */
  function OutgoingHash(c: Crypto, key: Option<seq<Byte>>, timestamp: int, text: string, flags: int): Option<string> {
    if |Encode(text)| > MAX_UTF8 || key.None? || |key.value| != 16 then None
    else
      match EncryptGroupText(c, key.value, timestamp, text, flags)
      case None => None
      case Some(payload) =>
        PacketFraming.CanonicalHash(Some(PacketFraming.PayloadHash(c.sha, PAYLOAD_TYPE_GROUP_TEXT, payload)))
  }

  /** A predicted hash is the hash of every heard packet with that payload, over any route. */
  lemma PredictedHashIsHeard(
    c: Crypto, key: seq<Byte>, timestamp: int, text: string, flags: int, raw: seq<Byte>)
    requires Lawful(c) && OutgoingHash(c, Some(key), timestamp, text, flags).Some?
    requires
      var heard := PacketFraming.Parse(raw);
      && heard.Some? && heard.value.payloadType == PAYLOAD_TYPE_GROUP_TEXT
      && Some(heard.value.payload) == EncryptGroupText(c, key, timestamp, text, flags)
    ensures PacketFraming.PacketHash(c.sha, raw) == OutgoingHash(c, Some(key), timestamp, text, flags).value
    ensures PacketFraming.PacketHash(c.sha, raw) != PacketFraming.ZERO_HASH
  {
    var e := PacketFraming.Parse(raw).value;
    PacketFraming.HashIgnoresRoute(c.sha, raw);
    PacketFraming.ComputedHashIsCanonical(c.sha, [PAYLOAD_TYPE_GROUP_TEXT % 256] + e.payload);
  }
}
