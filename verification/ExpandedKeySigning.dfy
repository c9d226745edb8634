/**
 Ed25519 signing with an already expanded key (`ed25519_sign_expanded`), over any group in
 which the order times the base point vanishes; commutativity is never needed.
 Sections 5.1.6 and 5.1.7 of RFC 8032.  The library's multiplication ignores the top bit of
 a scalar, while the signature's second half is computed with all of it.
 */
module ExpandedKeySigning {
  import opened Bytes

  /** The order the program reduces by. */
  const ED25519_ORDER: nat := 0x1000000000000000000000000000000014def9dea2f79cd65812631a5cf5d3ed

  const TWO_255: nat := 0x8000_0000_0000_0000_0000_0000_0000_0000_0000_0000_0000_0000_0000_0000_0000_0000

  /** The points, the base point and its order, the 32-byte encoding and the hash. */
  datatype Curve<!G> = Curve(
    order: nat,
    add: (G, G) -> G,
    zero: G,
    base: G,
    encode: G -> seq<Byte>,
    hash: seq<Byte> -> seq<Byte>)

  function Times<G>(c: Curve<G>, n: nat, p: G): G {
    if n == 0 then c.zero else c.add(p, Times(c, n - 1, p))
  }

  ghost predicate GroupLaws<G(!new)>(c: Curve<G>) {
    && (forall x, y, z {:trigger c.add(c.add(x, y), z)} :: c.add(c.add(x, y), z) == c.add(x, c.add(y, z)))
    && (forall x :: c.add(c.zero, x) == x)
    && (forall x :: c.add(x, c.zero) == x)
  }

  ghost predicate EncodingLaws<G(!new)>(c: Curve<G>) {
    && (forall x :: |c.encode(x)| == 32)
    && (forall x, y :: c.encode(x) == c.encode(y) ==> x == y)
  }

  ghost predicate Lawful<G(!new)>(c: Curve<G>) {
    && GroupLaws(c) && EncodingLaws(c)
    && 0 < c.order < TWO_255 && Times(c, c.order, c.base) == c.zero
  }

  // ----- The program -----

  /** `crypto_scalarmult_ed25519_base_noclamp`: the top bit of the 32 bytes is cleared. */
  function BaseTimes<G>(c: Curve<G>, scalar: seq<Byte>): G {
    Times(c, FromLittle(scalar) % TWO_255, c.base)
  }

  /** Derive the public key from the first 32 bytes, unclamped. */
  function DerivePublicKey<G>(c: Curve<G>, privateKey: seq<Byte>): seq<Byte> {
    c.encode(BaseTimes(c, if |privateKey| >= 32 then privateKey[..32] else privateKey))
  }

  function Nonce<G>(c: Curve<G>, prefix: seq<Byte>, message: seq<Byte>): nat
    requires c.order > 0
  {
    FromLittle(c.hash(prefix + message)) % c.order
  }

  function Challenge<G>(c: Curve<G>, commitment: seq<Byte>, publicKey: seq<Byte>, message: seq<Byte>): nat
    requires c.order > 0
  {
    FromLittle(c.hash(commitment + publicKey + message)) % c.order
  }

  function Sign<G>(
    c: Curve<G>, message: seq<Byte>, scalar: seq<Byte>, prefix: seq<Byte>, publicKey: seq<Byte>): seq<Byte>
    requires c.order > 0
  {
    var r := Nonce(c, prefix, message);
    var commitment := c.encode(BaseTimes(c, ToLittle(r, 32)));
    var k := Challenge(c, commitment, publicKey, message);
    var s := (r + k * FromLittle(scalar)) % c.order;
    commitment + ToLittle(s, 32)
  }

  // ----- The verifier of RFC 8032 -----

  /**
   Verification: the two halves of a 64-byte signature are a point R and a number S below the order
   such that S times the base is R plus the challenge times the public point.
   */
  ghost predicate Verifies<G(!new)>(c: Curve<G>, publicKey: seq<Byte>, message: seq<Byte>, signature: seq<Byte>)
    requires c.order > 0
  {
    && |signature| == 64
    && FromLittle(signature[32..]) < c.order
    && exists r: G, a: G ::
         && c.encode(r) == signature[..32] && c.encode(a) == publicKey
         && Times(c, FromLittle(signature[32..]), c.base)
              == c.add(r, Times(c, Challenge(c, signature[..32], publicKey, message), a))
  }

  // ----- Multiples -----

  lemma {:induction false} TimesAdd<G(!new)>(c: Curve<G>, m: nat, n: nat, p: G)
    requires Lawful(c)
    ensures Times(c, m + n, p) == c.add(Times(c, m, p), Times(c, n, p))
  {
    if m > 0 {
      TimesAdd(c, m - 1, n, p);
    }
  }

  lemma {:induction false} TimesMul<G(!new)>(c: Curve<G>, m: nat, n: nat, product: nat, p: G)
    requires Lawful(c) && product == m * n
    ensures Times(c, product, p) == Times(c, m, Times(c, n, p))
  {
    if m > 0 {
      OneLess(m, n);
      TimesMul(c, m - 1, n, product - n, p);
      TimesAdd(c, n, product - n, p);
    }
  }

  lemma OneLess(m: nat, n: nat)
    requires m > 0
    ensures m * n >= n && m * n - n == (m - 1) * n
  {
  }

  lemma {:induction false} TimesZero<G(!new)>(c: Curve<G>, n: nat)
    requires Lawful(c)
    ensures Times(c, n, c.zero) == c.zero
  {
    if n > 0 {
      TimesZero(c, n - 1);
    }
  }

  /** Multiples of the base point depend on the factor modulo the order only. */
  lemma TimesModulo<G(!new)>(c: Curve<G>, n: nat, whole: nat, q: nat, s: nat)
    requires Lawful(c) && whole == q * c.order && n == whole + s
    ensures Times(c, s, c.base) == Times(c, n, c.base)
  {
    TimesMul(c, q, c.order, whole, c.base);
    TimesZero(c, q);
    TimesAdd(c, whole, s, c.base);
  }

  lemma Reduced(n: nat, d: nat) returns (q: nat, s: nat)
    requires d > 0
    ensures n == q * d + s && s == n % d < d
  {
    q, s := n / d, n % d;
  }

  lemma Complement(m: nat, d: nat) returns (t: nat, whole: nat)
    requires d > 0
    ensures whole == m * d && t + m == whole
  {
    whole := m * d;
    assert whole == m * (d - 1) + m;
    t := m * (d - 1);
  }

  /** Equal multiples of the base differ by a factor that vanishes. */
  lemma Cancel<G(!new)>(c: Curve<G>, m: nat, n: nat)
    requires Lawful(c)
    ensures Times(c, m + n, c.base) == Times(c, m, c.base) <==> Times(c, n, c.base) == c.zero
  {
    var t, whole := Complement(m, c.order);
    TimesMul(c, m, c.order, whole, c.base);
    TimesZero(c, m);
    CancelWith(c, m, n, t);
  }

  lemma CancelWith<G(!new)>(c: Curve<G>, m: nat, n: nat, t: nat)
    requires Lawful(c) && Times(c, t + m, c.base) == c.zero
    ensures Times(c, m + n, c.base) == Times(c, m, c.base) <==> Times(c, n, c.base) == c.zero
  {
    var tm, tn := Times(c, m, c.base), Times(c, n, c.base);
    TimesAdd(c, m, n, c.base);
    TimesAdd(c, t, m, c.base);
    var tt := Times(c, t, c.base);
    assert c.add(tt, tm) == c.zero;
    assert c.add(tt, c.add(tm, tn)) == c.add(c.add(tt, tm), tn) == tn;
  }

  // ----- Thirty-two bytes -----

  lemma {:induction false} Pow256Split(m: nat, n: nat)
    ensures Pow256(m + n) == Pow256(m) * Pow256(n)
  {
    if m > 0 {
      Pow256Split(m - 1, n);
    }
  }

  /** Thirty-two bytes hold one bit more than the library uses. */
  lemma ThirtyTwoBytes()
    ensures Pow256(32) == 2 * TWO_255 && ED25519_ORDER < TWO_255
  {
    Pow256Split(4, 4);
    Pow256Split(8, 8);
    Pow256Split(16, 16);
  }

  lemma BelowWidth(r: nat)
    requires r < TWO_255
    ensures r < Pow256(32)
  {
    ThirtyTwoBytes();
  }

  lemma FitsIn<G>(c: Curve<G>, r: nat)
    requires 0 < c.order < TWO_255 && r < c.order
    ensures FromLittle(ToLittle(r, 32)) == r && r % TWO_255 == r
  {
    BelowWidth(r);
    FromToLittle(r, 32);
    Masked(r);
  }

  /** A 32-byte scalar is what the library sees of it, plus 2^255 if its top bit is set. */
  lemma TopBit(bytes: seq<Byte>)
    requires |bytes| == 32
    ensures
      var a := FromLittle(bytes);
      a < 2 * TWO_255 && a == a % TWO_255 + (if a < TWO_255 then 0 else TWO_255)
  {
    Below(bytes, 32);
    ThirtyTwoBytes();
    Masked(FromLittle(bytes));
  }

  lemma Below(bytes: seq<Byte>, n: nat)
    requires |bytes| == n
    ensures FromLittle(bytes) < Pow256(n)
  {
    ToFromLittle(bytes);
  }

  lemma Masked(a: nat)
    requires a < 2 * TWO_255
    ensures a == a % TWO_255 + (if a < TWO_255 then 0 else TWO_255)
  {
  }

  // ----- Signatures -----

  /** The parts of a signature: the point R, the challenge and the number S. */
  datatype Parts = Parts(r: nat, k: nat, s: nat)

  function PartsOf<G>(
    c: Curve<G>, message: seq<Byte>, scalar: seq<Byte>, prefix: seq<Byte>, publicKey: seq<Byte>): Parts
    requires c.order > 0
  {
    var r := Nonce(c, prefix, message);
    var k := Challenge(c, c.encode(Times(c, r, c.base)), publicKey, message);
    var product := k * FromLittle(scalar);
    Parts(r, k, (r + product) % c.order)
  }

  lemma SignatureParts<G(!new)>(
    c: Curve<G>, message: seq<Byte>, scalar: seq<Byte>, prefix: seq<Byte>, publicKey: seq<Byte>)
    requires Lawful(c)
    ensures
      var p := PartsOf(c, message, scalar, prefix, publicKey);
      var signature := Sign(c, message, scalar, prefix, publicKey);
      && p.r < c.order && p.s < c.order && |signature| == 64
      && signature[..32] == c.encode(Times(c, p.r, c.base))
      && FromLittle(signature[32..]) == p.s
      && Challenge(c, signature[..32], publicKey, message) == p.k
  {
    var p := PartsOf(c, message, scalar, prefix, publicKey);
    FitsIn(c, p.r);
    FitsIn(c, p.s);
    var commitment, tail := c.encode(Times(c, p.r, c.base)), ToLittle(p.s, 32);
    assert (commitment + tail)[..32] == commitment && (commitment + tail)[32..] == tail;
  }

  lemma TimesReduced<G(!new)>(c: Curve<G>, n: nat)
    requires Lawful(c)
    ensures Times(c, n % c.order, c.base) == Times(c, n, c.base)
  {
    var q, s := Reduced(n, c.order);
    var whole := n - s;
    TimesModulo(c, n, whole, q, s);
  }

  /** The equation for a signature made with `b` and a bit more, checked with the point of `b`. */
  lemma SignatureEquation<G(!new)>(c: Curve<G>, r: nat, k: nat, b: nat, low: nat, high: nat)
    requires Lawful(c) && low == k * b
    ensures
      Times(c, (r + low + high) % c.order, c.base) == c.add(Times(c, r, c.base), Times(c, k, Times(c, b, c.base)))
      <==> Times(c, high, c.base) == c.zero
  {
    TimesMul(c, k, b, low, c.base);
    TimesReduced(c, r + low + high);
    SumVanishesIff(c, r, low, high);
  }

  lemma SumVanishesIff<G(!new)>(c: Curve<G>, r: nat, low: nat, high: nat)
    requires Lawful(c)
    ensures Times(c, r + low + high, c.base) == c.add(Times(c, r, c.base), Times(c, low, c.base))
      <==> Times(c, high, c.base) == c.zero
  {
    TimesAdd(c, r, low, c.base);
    Cancel(c, r + low, high);
  }

  /** `s` is what a signature with `product`, the challenge times the scalar, carries. */
  ghost predicate Carries<G>(c: Curve<G>, r: nat, product: nat, s: nat)
    requires c.order > 0
  {
    s == (r + product) % c.order
  }

  /** A scalar of which the library sees only `b`. */
  lemma SeenScalar<G(!new)>(c: Curve<G>, r: nat, k: nat, b: nat, low: nat, high: nat, s: nat)
    requires Lawful(c) && low == k * b && Carries(c, r, low + high, s)
    ensures Times(c, s, c.base) == c.add(Times(c, r, c.base), Times(c, k, Times(c, b, c.base)))
      <==> Times(c, high, c.base) == c.zero
  {
    SignatureEquation(c, r, k, b, low, high);
    assert r + low + high == r + (low + high);
  }

  lemma Distribute(k: nat, b: nat) returns (low: nat, high: nat)
    ensures low == k * b && high == k * TWO_255 && k * (b + TWO_255) == low + high
  {
    low, high := k * b, k * TWO_255;
  }

  /** The equation for a scalar of 256 bits. */
  lemma EquationOfScalar<G(!new)>(c: Curve<G>, r: nat, k: nat, a: nat, seen: nat, product: nat, s: nat)
    requires Lawful(c) && product == k * a && Carries(c, r, product, s)
    requires seen < TWO_255 && (a == seen || a == seen + TWO_255)
    ensures
      Times(c, s, c.base) == c.add(Times(c, r, c.base), Times(c, k, Times(c, seen, c.base)))
      <==> a < TWO_255 || Times(c, k * TWO_255, c.base) == c.zero
  {
    if a == seen {
      SeenScalar(c, r, k, a, product, 0, s);
    } else {
      var low, high := Distribute(k, seen);
      SeenScalar(c, r, k, seen, low, high, s);
    }
  }

  /** With an injective encoding the verifier has only one point to take for each half. */
  lemma VerifiesIff<G(!new)>(c: Curve<G>, point: G, public: G, message: seq<Byte>, signature: seq<Byte>)
    requires Lawful(c) && |signature| == 64 && signature[..32] == c.encode(point)
    requires FromLittle(signature[32..]) < c.order
    ensures Verifies(c, c.encode(public), message, signature) <==>
      Times(c, FromLittle(signature[32..]), c.base)
        == c.add(point, Times(c, Challenge(c, signature[..32], c.encode(public), message), public))
  {
  }

  lemma PartsEquation<G(!new)>(
    c: Curve<G>, message: seq<Byte>, scalar: seq<Byte>, prefix: seq<Byte>, publicKey: seq<Byte>)
    requires Lawful(c) && |scalar| == 32
    ensures
      var p := PartsOf(c, message, scalar, prefix, publicKey);
      Times(c, p.s, c.base) == c.add(Times(c, p.r, c.base), Times(c, p.k, BaseTimes(c, scalar)))
      <==> FromLittle(scalar) < TWO_255 || Times(c, p.k * TWO_255, c.base) == c.zero
  {
    var p, a := PartsOf(c, message, scalar, prefix, publicKey), FromLittle(scalar);
    var product := PartsCarry(c, message, scalar, prefix, publicKey);
    TopBit(scalar);
    EquationOfScalar(c, p.r, p.k, a, a % TWO_255, product, p.s);
  }

  lemma PartsCarry<G(!new)>(
    c: Curve<G>, message: seq<Byte>, scalar: seq<Byte>, prefix: seq<Byte>, publicKey: seq<Byte>)
    returns (product: nat)
    requires c.order > 0
    ensures
      var p := PartsOf(c, message, scalar, prefix, publicKey);
      product == p.k * FromLittle(scalar) && Carries(c, p.r, product, p.s)
  {
    product := PartsOf(c, message, scalar, prefix, publicKey).k * FromLittle(scalar);
  }

  /** A signature with any prefix verifies under the point the library gives for its scalar, or not. */
  lemma SignVerifiesIff<G(!new)>(c: Curve<G>, message: seq<Byte>, scalar: seq<Byte>, prefix: seq<Byte>)
    requires Lawful(c) && |scalar| == 32
    ensures
      var publicKey := c.encode(BaseTimes(c, scalar));
      Verifies(c, publicKey, message, Sign(c, message, scalar, prefix, publicKey)) <==>
        || FromLittle(scalar) < TWO_255
        || Times(c, PartsOf(c, message, scalar, prefix, publicKey).k * TWO_255, c.base) == c.zero
  {
    var publicKey := c.encode(BaseTimes(c, scalar));
    var p := PartsOf(c, message, scalar, prefix, publicKey);
    SignatureParts(c, message, scalar, prefix, publicKey);
    PartsEquation(c, message, scalar, prefix, publicKey);
    VerifiesIff(c, Times(c, p.r, c.base), BaseTimes(c, scalar), message,
                Sign(c, message, scalar, prefix, publicKey));
  }

  /** The challenge that goes into the signature of a message. */
  function ChallengeOf<G>(c: Curve<G>, privateKey: seq<Byte>, message: seq<Byte>): nat
    requires c.order > 0 && |privateKey| == 64
  {
    PartsOf(c, message, privateKey[..32], privateKey[32..], DerivePublicKey(c, privateKey)).k
  }

  /**
   Every signature verifies under the public key derived from the same private key, for
   every message, every prefix and every scalar below 2^255, reduced modulo the order or
   not; with the top bit set, exactly when the challenge times 2^255 times the base vanishes.
   */
  lemma SignaturesVerify<G(!new)>(c: Curve<G>, privateKey: seq<Byte>, message: seq<Byte>)
    requires Lawful(c) && |privateKey| == 64
    ensures
      var publicKey := DerivePublicKey(c, privateKey);
      Verifies(c, publicKey, message, Sign(c, message, privateKey[..32], privateKey[32..], publicKey)) <==>
        || FromLittle(privateKey[..32]) < TWO_255
        || Times(c, ChallengeOf(c, privateKey, message) * TWO_255, c.base) == c.zero
  {
    SignVerifiesIff(c, message, privateKey[..32], privateKey[32..]);
  }

  // ----- Over a base point of exactly that, odd, order -----

  ghost predicate ExactOrder<G>(c: Curve<G>) {
    c.order % 2 == 1 && forall n: nat :: Times(c, n, c.base) == c.zero ==> exists q: nat :: n == q * c.order
  }

  lemma Odd(h: nat, e: nat)
    ensures (2 * h + 1) * (2 * e + 1) == 2 * (2 * (h * e) + h + e) + 1
  {
  }

  lemma Halved(x: nat, d: nat, q: nat) returns (h: nat)
    requires d % 2 == 1 && 2 * x == q * d
    ensures x == h * d
  {
    h := q / 2;
    var e := d / 2;
    Odd(h, e);
    assert q == 2 * h || q == 2 * h + 1;
    assert d == 2 * e + 1;
    if q == 2 * h {
      Double(h, d);
    }
  }

  lemma Double(h: nat, d: nat)
    ensures (2 * h) * d == 2 * (h * d)
  {
  }

  lemma DividedBy256(x: nat, d: nat, q: nat) returns (h: nat)
    requires d % 2 == 1 && 256 * x == q * d
    ensures x == h * d
  {
    h := Halved(128 * x, d, q);
    h := Halved(64 * x, d, h);
    h := Halved(32 * x, d, h);
    h := Halved(16 * x, d, h);
    h := Halved(8 * x, d, h);
    h := Halved(4 * x, d, h);
    h := Halved(2 * x, d, h);
    h := Halved(x, d, h);
  }

  lemma {:induction false} OddDivides(n: nat, m: nat, product: nat, d: nat, q: nat) returns (h: nat)
    requires d % 2 == 1 && product == n * Pow256(m) && product == q * d
    ensures n == h * d
    decreases m
  {
    if m == 0 {
      h := q;
    } else {
      var x := n * Pow256(m - 1);
      assert product == 256 * x by {
        Times256(n, Pow256(m - 1));
      }
      var part := DividedBy256(x, d, q);
      h := OddDivides(n, m - 1, x, d, part);
    }
  }

  lemma Times256(n: nat, p: nat)
    ensures n * (256 * p) == 256 * (n * p)
  {
  }

  /** A multiple of an odd order by 2^255 is a multiple already: a reduced challenge is then zero. */
  lemma VanishesIffZero<G(!new)>(c: Curve<G>, k: nat)
    requires Lawful(c) && ExactOrder(c) && k < c.order
    ensures Times(c, k * TWO_255, c.base) == c.zero <==> k == 0
  {
    if Times(c, k * TWO_255, c.base) == c.zero {
      var q: nat :| k * TWO_255 == q * c.order;
      ThirtyTwoBytes();
      Double(q, c.order);
      var h := OddDivides(k, 32, 2 * (k * TWO_255), c.order, 2 * q);
      NotAMultiple(k, h, c.order);
    }
  }

  lemma NotAMultiple(k: nat, h: nat, d: nat)
    requires k == h * d && k < d
    ensures k == 0
  {
  }

  /**
   On a curve like Ed25519, a key with the top bit set gives signatures that do not verify,
   except for messages whose challenge is zero.
   */
  lemma TopBitBreaksSignatures<G(!new)>(c: Curve<G>, privateKey: seq<Byte>, message: seq<Byte>)
    requires Lawful(c) && ExactOrder(c) && |privateKey| == 64
    ensures
      var publicKey := DerivePublicKey(c, privateKey);
      Verifies(c, publicKey, message, Sign(c, message, privateKey[..32], privateKey[32..], publicKey)) <==>
        FromLittle(privateKey[..32]) < TWO_255 || ChallengeOf(c, privateKey, message) == 0
  {
    SignaturesVerify(c, privateKey, message);
    VanishesIffZero(c, ChallengeOf(c, privateKey, message));
  }

  // ----- The laws can be met -----

  /** The group of three elements, generated by the second. */
  datatype Three = Zero | One | Two

  function Next(x: Three): Three {
    match x
    case Zero => One
    case One => Two
    case Two => Zero
  }

  function Plus(x: Three, y: Three): Three {
    match x
    case Zero => y
    case One => Next(y)
    case Two => Next(Next(y))
  }

  function Index(x: Three): nat {
    match x
    case Zero => 0
    case One => 1
    case Two => 2
  }

  function EncodeThree(x: Three): seq<Byte> {
    ToLittle(Index(x), 32)
  }

  ghost predicate IsSmall(c: Curve<Three>) {
    && c.order == 3 && c.zero == Zero && c.base == One
    && (forall x, y :: c.add(x, y) == Plus(x, y))
    && (forall x :: c.encode(x) == EncodeThree(x))
  }

  lemma {:induction false} SmallTimes(c: Curve<Three>, n: nat)
    requires IsSmall(c)
    ensures Index(Times(c, n, c.base)) == n % 3
  {
    if n > 0 {
      SmallTimes(c, n - 1);
      assert Times(c, n, c.base) == Next(Times(c, n - 1, c.base));
      IndexNext(Times(c, n - 1, c.base));
    }
  }

  lemma IndexNext(x: Three)
    ensures Index(Next(x)) == (Index(x) + 1) % 3
  {
  }

  lemma SmallGroup(x: Three, y: Three, z: Three)
    ensures Plus(Plus(x, y), z) == Plus(x, Plus(y, z)) && Plus(Zero, x) == x && Plus(x, Zero) == x
  {
  }

  lemma IndexFits<G>(c: Curve<G>, x: Three)
    requires c.order == 3
    ensures FromLittle(EncodeThree(x)) == Index(x)
  {
    FitsIn(c, Index(x));
  }

  lemma SmallEncoding(c: Curve<Three>, x: Three, y: Three)
    requires IsSmall(c)
    ensures c.encode(x) == c.encode(y) ==> x == y
    ensures |c.encode(x)| == 32
  {
    IndexFits(c, x);
    IndexFits(c, y);
  }

  lemma SmallExact(c: Curve<Three>)
    requires IsSmall(c)
    ensures ExactOrder(c)
  {
    forall n: nat | Times(c, n, c.base) == c.zero
      ensures exists q: nat :: n == q * c.order
    {
      SmallTimes(c, n);
      assert n == n / 3 * c.order;
    }
  }

  lemma SmallGroupLaws(c: Curve<Three>)
    requires IsSmall(c)
    ensures GroupLaws(c)
  {
    forall x, y, z {:trigger c.add(c.add(x, y), z)}
      ensures c.add(c.add(x, y), z) == c.add(x, c.add(y, z))
    {
      SmallGroup(x, y, z);
    }
    forall x
      ensures c.add(c.zero, x) == x && c.add(x, c.zero) == x
    {
      SmallGroup(x, Zero, Zero);
    }
  }

  lemma SmallEncodingLaws(c: Curve<Three>)
    requires IsSmall(c)
    ensures EncodingLaws(c)
  {
    forall x, y
      ensures |c.encode(x)| == 32 && (c.encode(x) == c.encode(y) ==> x == y)
    {
      SmallEncoding(c, x, y);
    }
  }

  /** A group of exactly its odd order with an injective encoding: the laws above can be met. */
  lemma LawsCanHold()
    ensures exists c: Curve<Three> :: Lawful(c) && ExactOrder(c)
  {
    var c: Curve<Three> := Curve(3, Plus, Zero, One, EncodeThree, (m: seq<Byte>) => []);
    SmallGroupLaws(c);
    SmallEncodingLaws(c);
    SmallTimes(c, c.order);
    SmallExact(c);
    assert Lawful(c);
  }
}
