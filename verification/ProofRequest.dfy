/** The shared request crate: canonical scalars, the action and request encodings, the digest and
    the durable per-wallet counter account. */
module ProofRequest {
  import opened Bytes
  import opened Errors

  /** SHA-256, left uninterpreted. */
  type Hash = seq<byte> -> Key

  const GENERATION: byte := 1
  const STATE_LEN := 50
  const MAX_REQUEST_LIFETIME: u64 := 300
  const REQUEST_DOMAIN: seq<byte> := Ascii("ENTROS_PROOF_REQUEST_V1") + Zeros(9)
  const ACTION_DOMAIN: seq<byte> := Ascii("ENTROS_ANCHOR_UPDATE_V1") + Zeros(9)

  // --- Canonical scalars ---

  const MODULUS_0: seq<byte> := [48, 100, 78, 114, 225, 49, 160, 41]
  const MODULUS_1: seq<byte> := [184, 80, 69, 182, 129, 129, 88, 93]
  const MODULUS_2: seq<byte> := [40, 51, 232, 72, 121, 185, 112, 145]
  const MODULUS_3: seq<byte> := [67, 225, 245, 147, 240, 0, 0, 1]
  const SCALAR_MODULUS: Key := MODULUS_0 + MODULUS_1 + MODULUS_2 + MODULUS_3

  /** The order of the BN254 scalar field. */
  const BN254_ORDER: nat := 21888242871839275222246405745257275088548364400416034343698204186575808495617

  /** The array comparison the crate makes. */
  predicate CanonicalScalar(value: Key) {
    LexLess(value, SCALAR_MODULUS)
  }

  /** Four bytes as a big-endian number. */
  function Word(s: seq<byte>): nat
    requires |s| == 4
  {
    var a: int, b: int, c: int, d: int := s[0], s[1], s[2], s[3];
    ((a * 256 + b) * 256 + c) * 256 + d
  }

  lemma BeWord(s: seq<byte>)
    requires |s| == 4
    ensures BeValue(s) == Word(s)
  {
    assert s[..3][..2] == s[..2] && s[..2][..1] == s[..1] && s[..1][..0] == [];
    assert BeValue(s[..1]) == s[0];
    assert BeValue(s[..2]) == 256 * BeValue(s[..1]) + s[1];
    assert BeValue(s[..3]) == 256 * BeValue(s[..2]) + s[2];
  }

  /** Appending a word to a number. */
  lemma BePush(front: seq<byte>, word: seq<byte>)
    requires |word| == 4
    ensures BeValue(front + word) == BeValue(front) * 0x1_0000_0000 + Word(word)
  {
    Pow256Small();
    BeAppend(front, word);
    BeWord(word);
  }

  /** The constant is the field order, read big-endian. */
  lemma ModulusIsFieldOrder()
    ensures BeValue(SCALAR_MODULUS) == BN254_ORDER
  {
    var m0, m1, m2 := MODULUS_0, MODULUS_0 + MODULUS_1, MODULUS_0 + MODULUS_1 + MODULUS_2;
    PushEight([], MODULUS_0);
    PushEight(m0, MODULUS_1);
    PushEight(m1, MODULUS_2);
    PushEight(m2, MODULUS_3);
    assert [] + MODULUS_0 == MODULUS_0;
  }

  lemma PushEight(front: seq<byte>, s: seq<byte>)
    requires |s| == 8
    ensures BeValue(front + s) == BeValue(front) * TWO64 + Word(s[..4]) * 0x1_0000_0000 + Word(s[4..])
  {
    BePush(front, s[..4]);
    BePush(front + s[..4], s[4..]);
    assert front + s[..4] + s[4..] == front + s;
  }

  /** Comparing the arrays is comparing the numbers, for every 32-byte value. */
  lemma CanonicalIffBelowOrder(value: Key)
    ensures CanonicalScalar(value) <==> BeValue(value) < BN254_ORDER
  {
    LexIsNumeric(value, SCALAR_MODULUS);
    ModulusIsFieldOrder();
  }

  // --- The action ---

  datatype Action = Action(
    identity: Key,
    mint: Key,
    counter: u64,
    projection: u16,
    commitmentNew: Key,
    commitmentPrev: Key,
    threshold: u16,
    minDistance: u16,
    validUntil: u64)

  predicate Encodable(a: Action) {
    && CanonicalScalar(a.commitmentNew) && CanonicalScalar(a.commitmentPrev)
    && a.commitmentNew != ZERO_KEY && a.commitmentPrev != ZERO_KEY
    && a.validUntil != 0 && a.threshold <= 256 && a.minDistance <= a.threshold
  }

  /** The action as one concatenation. */
  function ActionBytes(a: Action): (s: seq<byte>)
    ensures |s| == 182
  {
    ACTION_DOMAIN + a.identity + a.mint + BeBytes(a.counter, 8) + BeBytes(a.projection, 2)
    + a.commitmentNew + a.commitmentPrev + BeBytes(a.threshold, 2) + BeBytes(a.minDistance, 2)
    + BeBytes(a.validUntil, 8)
  }

  function Encoded(a: Action): Option<seq<byte>> {
    if Encodable(a) then Some(ActionBytes(a)) else None
  }

  /** The ten writes into the zeroed buffer. */
  method FillAction(a: Action) returns (s: seq<byte>)
    ensures s == ActionBytes(a)
  {
    var bytes := new byte[182](_ => 0);
    ghost var f := ACTION_DOMAIN;
    CopyInto(bytes, 0, ACTION_DOMAIN, []);
    CopyInto(bytes, 32, a.identity, f);
    f := f + a.identity;
    CopyInto(bytes, 64, a.mint, f);
    f := f + a.mint;
    CopyInto(bytes, 96, BeBytes(a.counter, 8), f);
    f := f + BeBytes(a.counter, 8);
    CopyInto(bytes, 104, BeBytes(a.projection, 2), f);
    f := f + BeBytes(a.projection, 2);
    CopyInto(bytes, 106, a.commitmentNew, f);
    f := f + a.commitmentNew;
    CopyInto(bytes, 138, a.commitmentPrev, f);
    f := f + a.commitmentPrev;
    CopyInto(bytes, 170, BeBytes(a.threshold, 2), f);
    f := f + BeBytes(a.threshold, 2);
    CopyInto(bytes, 172, BeBytes(a.minDistance, 2), f);
    f := f + BeBytes(a.minDistance, 2);
    CopyInto(bytes, 174, BeBytes(a.validUntil, 8), f);
    assert bytes[..] == ActionBytes(a);
    s := bytes[..];
  }

  method Encode(a: Action) returns (r: Option<seq<byte>>)
    ensures r == Encoded(a)
  {
    if !CanonicalScalar(a.commitmentNew) || !CanonicalScalar(a.commitmentPrev)
       || a.commitmentNew == ZERO_KEY || a.commitmentPrev == ZERO_KEY
       || a.validUntil == 0 || a.threshold > 256 || a.minDistance > a.threshold
    {
      return None;
    }
    var bytes := FillAction(a);
    r := Some(bytes);
  }

  /** The encoding, offset by offset; numbers are big-endian. */
  lemma ActionOffsets(a: Action)
    ensures var s := ActionBytes(a);
            && s[..32] == Ascii("ENTROS_ANCHOR_UPDATE_V1") + Zeros(9)
            && s[32..64] == a.identity && s[64..96] == a.mint && BeValue(s[96..104]) == a.counter
            && BeValue(s[104..106]) == a.projection && s[106..138] == a.commitmentNew
            && s[138..170] == a.commitmentPrev && BeValue(s[170..172]) == a.threshold
            && BeValue(s[172..174]) == a.minDistance && BeValue(s[174..182]) == a.validUntil
  {
    var front := ACTION_DOMAIN + a.identity + a.mint + BeBytes(a.counter, 8) + BeBytes(a.projection, 2);
    var back := a.commitmentNew + a.commitmentPrev + BeBytes(a.threshold, 2) + BeBytes(a.minDistance, 2)
                + BeBytes(a.validUntil, 8);
    assert ActionBytes(a) == front + back;
    assert front[..32] == ACTION_DOMAIN && front[32..64] == a.identity && front[64..96] == a.mint;
    assert front[96..104] == BeBytes(a.counter, 8) && front[104..106] == BeBytes(a.projection, 2);
    assert back[..32] == a.commitmentNew && back[32..64] == a.commitmentPrev && back[64..66] == BeBytes(a.threshold, 2);
    assert back[66..68] == BeBytes(a.minDistance, 2) && back[68..76] == BeBytes(a.validUntil, 8);
    FrontSlices(front, back);
    Pow256Small();
    BeRoundTrip(a.counter, 8);
    BeRoundTrip(a.projection, 2);
    BeRoundTrip(a.threshold, 2);
    BeRoundTrip(a.minDistance, 2);
    BeRoundTrip(a.validUntil, 8);
  }

  lemma FrontSlices(front: seq<byte>, back: seq<byte>)
    requires |front| == 106 && |back| == 76
    ensures var s := front + back;
            && s[..32] == front[..32] && s[32..64] == front[32..64] && s[64..96] == front[64..96]
            && s[96..104] == front[96..104] && s[104..106] == front[104..106]
            && s[106..138] == back[..32] && s[138..170] == back[32..64] && s[170..172] == back[64..66]
            && s[172..174] == back[66..68] && s[174..182] == back[68..76]
  {
  }

  /** Two actions with the same bytes are the same action. */
  lemma ActionBytesInjective(a: Action, b: Action)
    requires ActionBytes(a) == ActionBytes(b)
    ensures a == b
  {
    var a1, b1 := ACTION_DOMAIN + a.identity, ACTION_DOMAIN + b.identity;
    var a2, b2 := a1 + a.mint, b1 + b.mint;
    var a3, b3 := a2 + BeBytes(a.counter, 8), b2 + BeBytes(b.counter, 8);
    var a4, b4 := a3 + BeBytes(a.projection, 2), b3 + BeBytes(b.projection, 2);
    var a5, b5 := a4 + a.commitmentNew, b4 + b.commitmentNew;
    var a6, b6 := a5 + a.commitmentPrev, b5 + b.commitmentPrev;
    var a7, b7 := a6 + BeBytes(a.threshold, 2), b6 + BeBytes(b.threshold, 2);
    var a8, b8 := a7 + BeBytes(a.minDistance, 2), b7 + BeBytes(b.minDistance, 2);
    AppendInjective(a8, BeBytes(a.validUntil, 8), b8, BeBytes(b.validUntil, 8));
    AppendInjective(a7, BeBytes(a.minDistance, 2), b7, BeBytes(b.minDistance, 2));
    AppendInjective(a6, BeBytes(a.threshold, 2), b6, BeBytes(b.threshold, 2));
    AppendInjective(a5, a.commitmentPrev, b5, b.commitmentPrev);
    AppendInjective(a4, a.commitmentNew, b4, b.commitmentNew);
    AppendInjective(a3, BeBytes(a.projection, 2), b3, BeBytes(b.projection, 2));
    AppendInjective(a2, BeBytes(a.counter, 8), b2, BeBytes(b.counter, 8));
    AppendInjective(a1, a.mint, b1, b.mint);
    AppendInjective(ACTION_DOMAIN, a.identity, ACTION_DOMAIN, b.identity);
    Pow256Small();
    BeBytesInjective(a.counter, b.counter, 8);
    BeBytesInjective(a.projection, b.projection, 2);
    BeBytesInjective(a.threshold, b.threshold, 2);
    BeBytesInjective(a.minDistance, b.minDistance, 2);
    BeBytesInjective(a.validUntil, b.validUntil, 8);
  }

  // --- The request ---

  datatype Context = Context(deployment: Key, verifier: Key, consumer: Key, wallet: Key, nonce: Key)

  function RequestBytes(c: Context, actionHash: Key): (s: seq<byte>)
    ensures |s| == 225
  {
    REQUEST_DOMAIN + c.deployment + c.verifier + c.consumer + c.wallet + c.nonce + [1] + actionHash
  }

  function RequestDigest(hash: Hash, c: Context, a: Action): Option<Key> {
    if Encodable(a) then Some(hash(RequestBytes(c, hash(ActionBytes(a))))) else None
  }

  method ComputeRequestDigest(hash: Hash, c: Context, a: Action) returns (r: Option<Key>)
    ensures r == RequestDigest(hash, c, a)
  {
    var action := Encode(a);
    if action.None? {
      return None;
    }
    var bytes := new byte[225](_ => 0);
    ghost var f := REQUEST_DOMAIN;
    CopyInto(bytes, 0, REQUEST_DOMAIN, []);
    CopyInto(bytes, 32, c.deployment, f);
    f := f + c.deployment;
    CopyInto(bytes, 64, c.verifier, f);
    f := f + c.verifier;
    CopyInto(bytes, 96, c.consumer, f);
    f := f + c.consumer;
    CopyInto(bytes, 128, c.wallet, f);
    f := f + c.wallet;
    CopyInto(bytes, 160, c.nonce, f);
    f := f + c.nonce;
    CopyInto(bytes, 192, [1], f);
    f := f + [1];
    CopyInto(bytes, 193, hash(action.value), f);
    assert bytes[..] == RequestBytes(c, hash(action.value));
    r := Some(hash(bytes[..]));
  }

  /** The request, offset by offset. */
  lemma RequestOffsets(c: Context, actionHash: Key)
    ensures var s := RequestBytes(c, actionHash);
            && s[..32] == Ascii("ENTROS_PROOF_REQUEST_V1") + Zeros(9) && s[32..64] == c.deployment
            && s[64..96] == c.verifier && s[96..128] == c.consumer && s[128..160] == c.wallet
            && s[160..192] == c.nonce && s[192] == 1 && s[193..225] == actionHash
  {
    var s := RequestBytes(c, actionHash);
    var front := REQUEST_DOMAIN + c.deployment + c.verifier + c.consumer;
    assert front[..32] == REQUEST_DOMAIN && front[32..64] == c.deployment && front[64..96] == c.verifier;
    assert front[96..128] == c.consumer;
    assert s[..128] == front;
  }

  lemma ZeroOnlyZero(value: Key)
    ensures value == ZERO_KEY <==> BeValue(value) == 0
  {
    BeZeros(32);
    if BeValue(value) == 0 {
      BeZeroOnly(value);
    }
  }

  /** A request has a digest exactly when both commitments are non-zero field elements, the distances
      are in order up to 256, and it can expire. */
  lemma DigestExactly(hash: Hash, c: Context, a: Action)
    ensures RequestDigest(hash, c, a).Some?
            <==> 0 < BeValue(a.commitmentNew) < BN254_ORDER && 0 < BeValue(a.commitmentPrev) < BN254_ORDER
                 && a.validUntil > 0 && a.minDistance <= a.threshold <= 256
  {
    CanonicalIffBelowOrder(a.commitmentNew);
    CanonicalIffBelowOrder(a.commitmentPrev);
    ZeroOnlyZero(a.commitmentNew);
    ZeroOnlyZero(a.commitmentPrev);
  }

  lemma RequestBytesInjective(c: Context, h: Key, d: Context, k: Key)
    requires RequestBytes(c, h) == RequestBytes(d, k)
    ensures c == d && h == k
  {
    var c1, d1 := REQUEST_DOMAIN + c.deployment, REQUEST_DOMAIN + d.deployment;
    var c2, d2 := c1 + c.verifier, d1 + d.verifier;
    var c3, d3 := c2 + c.consumer, d2 + d.consumer;
    var c4, d4 := c3 + c.wallet, d3 + d.wallet;
    var c5, d5 := c4 + c.nonce, d4 + d.nonce;
    AppendInjective(c5 + [1], h, d5 + [1], k);
    AppendInjective(c5, [1], d5, [1]);
    AppendInjective(c4, c.nonce, d4, d.nonce);
    AppendInjective(c3, c.wallet, d3, d.wallet);
    AppendInjective(c2, c.consumer, d2, d.consumer);
    AppendInjective(c1, c.verifier, d1, d.verifier);
    AppendInjective(REQUEST_DOMAIN, c.deployment, REQUEST_DOMAIN, d.deployment);
  }

  ghost predicate Collision(hash: Hash, x: seq<byte>, y: seq<byte>) {
    x != y && hash(x) == hash(y)
  }

  /** A digest stands for one request: two different requests with one digest exhibit a hash
      collision, in the action encoding or in the request encoding. */
  lemma DigestBindsRequest(hash: Hash, c: Context, a: Action, d: Context, b: Action)
    requires RequestDigest(hash, c, a).Some? && RequestDigest(hash, c, a) == RequestDigest(hash, d, b)
    ensures || (c == d && a == b)
            || Collision(hash, ActionBytes(a), ActionBytes(b))
            || Collision(hash, RequestBytes(c, hash(ActionBytes(a))), RequestBytes(d, hash(ActionBytes(b))))
  {
    var x, y := RequestBytes(c, hash(ActionBytes(a))), RequestBytes(d, hash(ActionBytes(b)));
    if x == y {
      RequestBytesInjective(c, hash(ActionBytes(a)), d, hash(ActionBytes(b)));
      if ActionBytes(a) == ActionBytes(b) {
        ActionBytesInjective(a, b);
      }
    }
  }

  // --- The digest as two field elements ---

  method DigestLimbs(digest: Key) returns (high: Key, low: Key)
    ensures CanonicalScalar(high) && CanonicalScalar(low)
    ensures BeValue(digest) == BeValue(high) * Pow256(16) + BeValue(low)
    ensures BeValue(high) < Pow256(16) && BeValue(low) < Pow256(16)
    ensures high == Zeros(16) + digest[..16] && low == Zeros(16) + digest[16..]
  {
    var limb := new byte[32](_ => 0);
    CopyInto(limb, 16, digest[..16], Zeros(16));
    high := limb[..];
    assert high == Zeros(16) + digest[..16];
    limb := new byte[32](_ => 0);
    CopyInto(limb, 16, digest[16..], Zeros(16));
    low := limb[..];
    assert low == Zeros(16) + digest[16..];
    LimbsRecompose(digest);
  }

  lemma LimbsRecompose(digest: Key)
    ensures var high: Key, low: Key := Zeros(16) + digest[..16], Zeros(16) + digest[16..];
            && CanonicalScalar(high) && CanonicalScalar(low)
            && BeValue(digest) == BeValue(high) * Pow256(16) + BeValue(low)
            && BeValue(high) < Pow256(16) && BeValue(low) < Pow256(16)
  {
    BeZeros(16);
    BeAppend(Zeros(16), digest[..16]);
    BeAppend(Zeros(16), digest[16..]);
    BeAppend(digest[..16], digest[16..]);
    assert digest == digest[..16] + digest[16..];
    BeBound(digest[..16]);
    BeBound(digest[16..]);
  }

  lemma BeBound(s: seq<byte>)
    ensures BeValue(s) < Pow256(|s|)
  {
    BeCons(0, s);
  }

  const TWO128: nat := 0x1_0000_0000_0000_0000_0000_0000_0000_0000

  lemma Pow256Sixteen()
    ensures Pow256(16) == TWO128
  {
    Pow256Small();
    assert Pow256(9) == 256 * TWO64 && Pow256(10) == 0x1_0000 * TWO64 && Pow256(11) == 0x100_0000 * TWO64;
    assert Pow256(12) == 0x1_0000_0000 * TWO64 && Pow256(13) == 0x100_0000_0000 * TWO64;
    assert Pow256(14) == 0x1_0000_0000_0000 * TWO64 && Pow256(15) == 0x100_0000_0000_0000 * TWO64;
  }

  // --- 16-bit public inputs ---

  method EncodeU16(value: u16) returns (fe: Key)
    ensures fe == U16Field(value) && BeValue(fe) == value && DecodeU16(fe) == Some(value)
  {
    var encoded := new byte[32](_ => 0);
    CopyInto(encoded, 30, BeBytes(value, 2), Zeros(30));
    fe := encoded[..];
    assert fe == U16Field(value);
    U16FieldRoundTrip(value);
    DecodeU16Exact(fe);
  }

  function U16Field(value: u16): Key {
    Zeros(30) + BeBytes(value, 2)
  }

  /** Accepts only if the thirty high bytes are zero. */
  function DecodeU16(fe: Key): Option<u16> {
    Pow256Small();
    BeBound(fe[30..]);
    if forall i :: 0 <= i < 30 ==> fe[i] == 0 then Some(BeValue(fe[30..])) else None
  }

  lemma U16FieldRoundTrip(value: u16)
    ensures BeValue(U16Field(value)) == value
  {
    Pow256Small();
    BeZeros(30);
    BeAppend(Zeros(30), BeBytes(value, 2));
    BeRoundTrip(value, 2);
  }

  /** What the bound circuit is asked, input by input: the new commitment, the one before it, the two
      distances as numbers, and the digest's number in two halves. */
  ghost predicate SixInputs(inputs: seq<Key>, commitmentNew: Key, commitmentPrev: Key, threshold: u16, minDistance: u16,
                            digest: Key)
  {
    && |inputs| == 6 && inputs[0] == commitmentNew && inputs[1] == commitmentPrev
    && BeValue(inputs[2]) == threshold && BeValue(inputs[3]) == minDistance
    && BeValue(inputs[4]) < TWO128 && BeValue(inputs[5]) < TWO128
    && BeValue(inputs[4]) * TWO128 + BeValue(inputs[5]) == BeValue(digest)
  }

  lemma HalvesUnique(p: nat, a: nat, b: nat, c: nat, d: nat)
    requires b < p && d < p && a * p + b == c * p + d
    ensures a == c && b == d
  {
    if a < c {
      LeadingDigit(a, c, p, b, d);
    } else if c < a {
      LeadingDigit(c, a, p, d, b);
    }
  }

  /** There is one such list. */
  lemma SixInputsUnique(a: seq<Key>, b: seq<Key>, commitmentNew: Key, commitmentPrev: Key, threshold: u16,
                        minDistance: u16, digest: Key)
    requires SixInputs(a, commitmentNew, commitmentPrev, threshold, minDistance, digest)
    requires SixInputs(b, commitmentNew, commitmentPrev, threshold, minDistance, digest)
    ensures a == b
  {
    HalvesUnique(TWO128, BeValue(a[4]), BeValue(a[5]), BeValue(b[4]), BeValue(b[5]));
    BeValueInjective(a[2], b[2]);
    BeValueInjective(a[3], b[3]);
    BeValueInjective(a[4], b[4]);
    BeValueInjective(a[5], b[5]);
  }

  /** Decoding succeeds exactly on field elements that fit sixteen bits, and returns the value the
      circuit sees. */
  lemma DecodeU16Exact(fe: Key)
    ensures DecodeU16(fe).Some? <==> BeValue(fe) <= U16_MAX
    ensures DecodeU16(fe).Some? ==> DecodeU16(fe).value == BeValue(fe)
  {
    var high, low := fe[..30], fe[30..];
    Pow256Small();
    assert fe == high + low;
    BeAppend(high, low);
    BeBound(low);
    if DecodeU16(fe).Some? {
      assert high == Zeros(30);
      BeZeros(30);
    } else if BeValue(high) == 0 {
      BeZeroOnly(high);
    } else {
      assert BeValue(high) * Pow256(2) >= Pow256(2);
    }
  }

  lemma {:induction false} BeZeroOnly(s: seq<byte>)
    requires BeValue(s) == 0
    ensures forall i :: 0 <= i < |s| ==> s[i] == 0
  {
    if s != [] {
      BeZeroOnly(s[..|s| - 1]);
    }
  }

  // --- The counter account ---

  /** `hash(b"account:ProofRequestState")[..8]`. */
  function StateTag(hash: Hash): (s: seq<byte>)
    ensures |s| == 8
  {
    hash(Ascii("account:ProofRequestState"))[..8]
  }

  function ReadCounter(hash: Hash, data: seq<byte>, wallet: Key, bump: byte): Option<u64> {
    if |data| != STATE_LEN || data[..8] != StateTag(hash) || data[8] != GENERATION
       || data[9..41] != wallet || data[49] != bump
    then None
    else Some(U64Value(data[41..49]))
  }

  function StateBytes(hash: Hash, wallet: Key, counter: u64, bump: byte): (s: seq<byte>)
    ensures |s| == STATE_LEN
  {
    StateTag(hash) + [GENERATION] + wallet + LeBytes(counter, 8) + [bump]
  }

  /** The counter account, offset by offset. */
  lemma CounterExactly(hash: Hash, data: seq<byte>, wallet: Key, bump: byte, counter: u64)
    ensures ReadCounter(hash, data, wallet, bump) == Some(counter)
            <==> && |data| == 50 && data[..8] == hash(Ascii("account:ProofRequestState"))[..8] && data[8] == 1
                 && data[9..41] == wallet && LeValue(data[41..49]) == counter && data[49] == bump
  {
  }

  lemma StateBytesRead(hash: Hash, wallet: Key, counter: u64, bump: byte)
    ensures ReadCounter(hash, StateBytes(hash, wallet, counter, bump), wallet, bump) == Some(counter)
  {
    var s := StateBytes(hash, wallet, counter, bump);
    assert s[..8] == StateTag(hash) && s[9..41] == wallet && s[41..49] == LeBytes(counter, 8);
    U64RoundTrip(counter);
  }

  /** Overwriting bytes 41..49 changes the counter and nothing the reader checks. */
  lemma CounterWrite(hash: Hash, data: seq<byte>, wallet: Key, bump: byte, next: u64)
    requires ReadCounter(hash, data, wallet, bump).Some?
    ensures ReadCounter(hash, Splice(data, 41, LeBytes(next, 8)), wallet, bump) == Some(next)
  {
    var src := LeBytes(next, 8);
    var s := Splice(data, 41, src);
    assert s[..8] == data[..8] && s[9..41] == data[9..41] && s[41..49] == src;
    U64RoundTrip(next);
  }

  /** An allocated account nobody has claimed. */
  predicate Blank(hash: Hash, data: seq<byte>) {
    && |data| == STATE_LEN && data[..8] == StateTag(hash) && data[8] == 0
    && data[9..41] == ZERO_KEY && data[41..49] == Zeros(8)
  }

  /** A wallet's request-state account: its raw bytes, empty until created. */
  class CounterAccount {
    var data: seq<byte>

    constructor ()
      ensures data == []
    {
      data := [];
    }

    /** `advance`: create at zero when absent, then add one. */
    method Advance(hash: Hash, wallet: Key, bump: byte) returns (r: Outcome<Error>)
      modifies this
      ensures var before := if old(data) == [] then Some(0) else ReadCounter(hash, old(data), wallet, bump);
              && (r.Pass? <==> before.Some? && before.value < U64_MAX)
              && (r.Pass? ==> ReadCounter(hash, data, wallet, bump) == Some(before.value + 1))
              && (r == Fail(InvalidRequestContext) <==> before.None?)
      ensures r.Fail? ==> data == old(data)
    {
      if data == [] {
        data := StateBytes(hash, wallet, 0, bump);
        StateBytesRead(hash, wallet, 0, bump);
      }
      var counter := ReadCounter(hash, data, wallet, bump);
      if counter.None? {
        return Fail(InvalidRequestContext);
      }
      if counter.value == U64_MAX {
        return Fail(ArithmeticOverflow);
      }
      CounterWrite(hash, data, wallet, bump, counter.value + 1);
      data := Splice(data, 41, LeBytes(counter.value + 1, 8));
      r := Pass;
    }

    /** `prepare`: `init_if_needed` gives an absent account its tag and zeros; a blank account is
        claimed for the wallet; an existing counter keeps its value. */
    method Prepare(hash: Hash, wallet: Key, bump: byte) returns (r: Outcome<Error>)
      modifies this
      ensures r.Pass? <==> old(data) == [] || Blank(hash, old(data)) || ReadCounter(hash, old(data), wallet, bump).Some?
      ensures r.Pass? ==> ReadCounter(hash, data, wallet, bump) ==
                          if old(data) == [] || Blank(hash, old(data)) then Some(0)
                          else ReadCounter(hash, old(data), wallet, bump)
      ensures r.Fail? || ReadCounter(hash, old(data), wallet, bump).Some? ==> data == old(data)
      ensures r.Fail? ==> r == Fail(if |data| == STATE_LEN && data[..8] == StateTag(hash) then InvalidRequestContext
                                    else AccountDidNotDeserialize)
    {
      if data == [] {
        data := StateTag(hash) + Zeros(42);
        assert data[41..49] == Zeros(8) && data[9..41] == ZERO_KEY;
      }
      if |data| != STATE_LEN || data[..8] != StateTag(hash) {
        return Fail(AccountDidNotDeserialize);
      }
      if data[8] == 0 {
        if data[9..41] != ZERO_KEY || data[41..49] != Zeros(8) {
          return Fail(InvalidRequestContext);
        }
        Claim(wallet, bump);
      }
      if data[8] != GENERATION || data[9..41] != wallet || data[49] != bump {
        return Fail(InvalidRequestContext);
      }
      ZeroFields();
      r := Pass;
    }

    /** The three field writes on a blank account. */
    method Claim(wallet: Key, bump: byte)
      requires |data| == STATE_LEN
      modifies this
      ensures |data| == STATE_LEN && data[..8] == old(data)[..8] && data[41..49] == old(data)[41..49]
      ensures data[8] == GENERATION && data[9..41] == wallet && data[49] == bump
    {
      data := data[..8] + [GENERATION] + wallet + data[41..49] + [bump];
    }
  }
}
