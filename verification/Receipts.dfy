/** Validator receipts: the Ed25519 instruction they arrive in, the signing-key policy, and the
    four message layouts. */
module Receipts {
  import opened Bytes
  import opened Errors
  import opened ProofRequest

  const MAX_RECEIPT_AGE_SECS: i64 := 300
  const V1_LEN := 72
  const V2_LEN := 103
  const V3_LEN := 136
  const V4_DIGEST_LEN := 32
  const V2_DOMAIN: seq<byte> := Ascii("entros-validator-receipt-v2") + [0]
  const V3_DOMAIN: seq<byte> := Ascii("entros-validator-receipt-v3") + [0]
  const V4_DOMAIN: seq<byte> := Ascii("entros-validator-receipt-v4") + [0]
  const MAX_ASSURANCE_TIER: u8 := 2

  // --- Who may sign ---

  datatype KeyPolicy = KeyPolicy(primary: Key, secondary: Key, secondaryValidUntil: i64) {
    predicate Configured() { primary != ZERO_KEY }

    predicate Accepts(key: Key, now: i64) {
      key == primary || (secondary != ZERO_KEY && now <= secondaryValidUntil && key == secondary)
    }
  }

  // --- The Ed25519 instruction in front ---

  const HEADER_LEN := 16
  const THIS_INSTRUCTION: nat := 0xFFFF

  function U16At(data: seq<byte>, at: nat): nat
    requires at + 2 <= |data|
  {
    data[at] as int + 256 * (data[at + 1] as int)
  }

  /** The message of the preceding single-signature Ed25519 instruction, if that instruction is
      self-contained, well formed and signed by an accepted key. None: there is no such
      instruction. */
  function LoadReceipt(instruction: Option<seq<byte>>, keys: KeyPolicy, sizes: set<nat>, now: i64)
    : Result<seq<byte>, Error>
  {
    var data := if instruction.Some? then instruction.value else [];
    :- Need(keys.Configured(), ValidatorNotConfigured);
    :- Need(instruction.Some?, MissingValidatorReceipt);
    :- Need(|data| >= HEADER_LEN && data[0] == 1, MalformedReceiptMessage);
    :- Need(U16At(data, 4) == THIS_INSTRUCTION && U16At(data, 8) == THIS_INSTRUCTION
            && U16At(data, 14) == THIS_INSTRUCTION, MalformedReceiptMessage);
    var keyAt, messageAt, size := U16At(data, 6), U16At(data, 10), U16At(data, 12);
    :- Need(keyAt + 32 <= |data| && messageAt + size <= |data|, MalformedReceiptMessage);
    :- Need(size in sizes, MalformedReceiptMessage);
    :- Need(keys.Accepts(data[keyAt..keyAt + 32], now), ReceiptValidatorMismatch);
    Ok(data[messageAt..messageAt + size])
  }

  /** What the Ed25519 precompile has established about a one-signature instruction before the
      program runs: the signature, key and message it is pointed at belong together. Each
      reference may point into this instruction or into another one of the transaction. */
  ghost predicate PrecompileAccepts(data: seq<byte>, others: nat -> seq<byte>,
                                    valid: (Key, seq<byte>, seq<byte>) -> bool)
  {
    |data| >= HEADER_LEN && data[0] == 1 &&
    var source := (index: nat) => if index == THIS_INSTRUCTION then data else others(index);
    var sigIn, keyIn, messageIn := source(U16At(data, 4)), source(U16At(data, 8)), source(U16At(data, 14));
    var sigAt, keyAt, messageAt, size := U16At(data, 2), U16At(data, 6), U16At(data, 10), U16At(data, 12);
    && sigAt + 64 <= |sigIn| && keyAt + 32 <= |keyIn| && messageAt + size <= |messageIn|
    && valid(keyIn[keyAt..keyAt + 32], messageIn[messageAt..messageAt + size], sigIn[sigAt..sigAt + 64])
  }

  /** The bytes the program reads are the bytes the precompile verified: whatever other
      instructions the transaction carries, a loaded message really was signed by an accepted key. */
  lemma LoadedMessageWasSigned(data: seq<byte>, others: nat -> seq<byte>, valid: (Key, seq<byte>, seq<byte>) -> bool,
                               keys: KeyPolicy, sizes: set<nat>, now: i64)
    requires PrecompileAccepts(data, others, valid)
    requires LoadReceipt(Some(data), keys, sizes, now).Ok?
    ensures exists key: Key, sig :: keys.Accepts(key, now) && key != ZERO_KEY
                                    && valid(key, LoadReceipt(Some(data), keys, sizes, now).value, sig)
  {
    var keyAt, sigAt := U16At(data, 6), U16At(data, 2);
    var key: Key, sig := data[keyAt..keyAt + 32], data[sigAt..sigAt + 64];
    assert keys.Accepts(key, now) && valid(key, LoadReceipt(Some(data), keys, sizes, now).value, sig);
  }

  /** The instruction's header, byte by byte: one signature; all three parts in this instruction; a
      message of an allowed size; a key that was or still is the validator's. */
  ghost predicate WellSigned(data: seq<byte>, keys: KeyPolicy, sizes: set<nat>, now: i64, message: seq<byte>) {
    && |data| >= 16 && data[0] == 1
    && data[4] == 255 && data[5] == 255 && data[8] == 255 && data[9] == 255 && data[14] == 255 && data[15] == 255
    && var keyAt: int, messageAt: int, size: int := data[6] as int + 256 * (data[7] as int),
         data[10] as int + 256 * (data[11] as int), data[12] as int + 256 * (data[13] as int);
    && keyAt + 32 <= |data| && messageAt + size <= |data| && size in sizes
    && message == data[messageAt..messageAt + size]
    && var key := data[keyAt..keyAt + 32];
    key == keys.primary || (key == keys.secondary && key != ZERO_KEY && now <= keys.secondaryValidUntil)
  }

  /** The parser returns exactly that message, and only if a primary key is configured. */
  lemma LoadExactly(instruction: Option<seq<byte>>, keys: KeyPolicy, sizes: set<nat>, now: i64, message: seq<byte>)
    ensures LoadReceipt(instruction, keys, sizes, now) == Ok(message)
            <==> keys.primary != ZERO_KEY && instruction.Some?
                 && WellSigned(instruction.value, keys, sizes, now, message)
  {
    if instruction.Some? && |instruction.value| >= 16 {
      var data := instruction.value;
      assert U16At(data, 4) == 0xFFFF <==> data[4] == 255 && data[5] == 255;
      assert U16At(data, 8) == 0xFFFF <==> data[8] == 255 && data[9] == 255;
      assert U16At(data, 14) == 0xFFFF <==> data[14] == 255 && data[15] == 255;
    }
  }

  // --- Mint, rebaseline and reset receipts ---

  datatype Purpose = ForMint | ForRebaseline | ForReset | ForUpdate {
    function Code(): byte {
      match this
      case ForMint => 1
      case ForRebaseline => 2
      case ForReset => 3
      case ForUpdate => 4
    }
  }

  datatype Session = Session(finalDigest: Key, tier: u8)

  function CheckAge(validatedAt: i64, now: i64): (r: Outcome<Error>)
    ensures r.Pass? <==> now - MAX_RECEIPT_AGE_SECS <= validatedAt <= now
  {
    if validatedAt > now then Fail(ReceiptFromFuture)
    else if SatSub(now, validatedAt) > MAX_RECEIPT_AGE_SECS then Fail(ReceiptExpired)
    else Pass
  }

  function VerifyPayload(message: seq<byte>, wallet: Key, commitment: Key, purpose: Purpose, version: u16, now: i64)
    : Result<Option<Session>, Error>
  {
    if |message| == V1_LEN then
      :- Need(purpose == ForMint && version == 0, ReceiptVersionMismatch);
      :- Need(message[..32] == wallet, ReceiptWalletMismatch);
      :- Need(message[32..64] == commitment, ReceiptCommitmentMismatch);
      :- CheckAge(I64Value(message[64..72]), now);
      Ok(None)
    else if |message| == V2_LEN || |message| == V3_LEN then
      var v3 := |message| == V3_LEN;
      :- Need(message[..28] == (if v3 then V3_DOMAIN else V2_DOMAIN), MalformedReceiptMessage);
      :- Need(message[28] == purpose.Code(), ReceiptPurposeMismatch);
      :- Need(U16Value(message[29..31]) == version, ReceiptProjectionVersionMismatch);
      :- Need(v3 ==> message[135] <= MAX_ASSURANCE_TIER, InvalidAssuranceTier);
      :- Need(message[31..63] == wallet, ReceiptWalletMismatch);
      :- Need(message[63..95] == commitment, ReceiptCommitmentMismatch);
      :- CheckAge(I64Value(message[95..103]), now);
      Ok(if v3 then Some(Session(message[103..135], message[135])) else None)
    else
      Err(MalformedReceiptMessage)
  }

  function V1Message(wallet: Key, commitment: Key, at: i64): seq<byte> {
    wallet + commitment + I64Le(at)
  }

  function V2Fields(purpose: Purpose, version: u16, wallet: Key, commitment: Key, at: i64): (s: seq<byte>)
    ensures |s| == 75
  {
    [purpose.Code()] + LeBytes(version, 2) + wallet + commitment + I64Le(at)
  }

  function V2Message(purpose: Purpose, version: u16, wallet: Key, commitment: Key, at: i64): seq<byte> {
    V2_DOMAIN + V2Fields(purpose, version, wallet, commitment, at)
  }

  function V3Message(purpose: Purpose, version: u16, wallet: Key, commitment: Key, at: i64, session: Session)
    : seq<byte>
  {
    V3_DOMAIN + V2Fields(purpose, version, wallet, commitment, at) + session.finalDigest + [session.tier]
  }

  /** The message is an encoding of this transition validated at `at`, carrying `session`. */
  ghost predicate Encodes(message: seq<byte>, wallet: Key, commitment: Key, purpose: Purpose, version: u16, at: i64,
                          session: Option<Session>)
  {
    match session
    case None => (message == V1Message(wallet, commitment, at) && purpose == ForMint && version == 0)
                 || message == V2Message(purpose, version, wallet, commitment, at)
    case Some(s) => s.tier <= MAX_ASSURANCE_TIER && message == V3Message(purpose, version, wallet, commitment, at, s)
  }

  /** The parser accepts exactly the encodings validated in the last five minutes, and returns
      their session. */
  lemma AcceptedIffEncoded(message: seq<byte>, wallet: Key, commitment: Key, purpose: Purpose, version: u16, now: i64,
                           session: Option<Session>)
    ensures VerifyPayload(message, wallet, commitment, purpose, version, now) == Ok(session)
            <==> exists at: i64 :: now - MAX_RECEIPT_AGE_SECS <= at <= now
                                   && Encodes(message, wallet, commitment, purpose, version, at, session)
  {
    if VerifyPayload(message, wallet, commitment, purpose, version, now) == Ok(session) {
      var at := if |message| == V1_LEN then ReadV1(message, wallet, commitment, now)
                else ReadV2(message, wallet, commitment, purpose, version, now);
      assert Encodes(message, wallet, commitment, purpose, version, at, session);
    }
    if at: i64 :| now - MAX_RECEIPT_AGE_SECS <= at <= now
                  && Encodes(message, wallet, commitment, purpose, version, at, session)
    {
      if session.Some? {
        V3Accepted(wallet, commitment, purpose, version, now, at, session.value);
      } else if message == V2Message(purpose, version, wallet, commitment, at) {
        V2Accepted(wallet, commitment, purpose, version, now, at);
      } else {
        V1Accepted(wallet, commitment, now, at);
      }
    }
  }

  /** Byte 28 of a receipt. */
  ghost predicate PurposeByte(b: byte, purpose: Purpose) {
    match purpose
    case ForMint => b == 1
    case ForRebaseline => b == 2
    case ForReset => b == 3
    case ForUpdate => b == 4
  }

  /** A receipt for this transition, read off its bytes. */
  ghost predicate PayloadBytes(message: seq<byte>, wallet: Key, commitment: Key, purpose: Purpose, version: u16,
                               now: i64)
  {
    || (&& |message| == 72 && purpose == ForMint && version == 0
        && message[..32] == wallet && message[32..64] == commitment
        && now - 300 <= I64Value(message[64..72]) <= now)
    || (&& |message| in {103, 136}
        && message[..28] == Ascii(if |message| == 103 then "entros-validator-receipt-v2"
                                  else "entros-validator-receipt-v3") + [0]
        && PurposeByte(message[28], purpose)
        && message[29] as int + 256 * (message[30] as int) == version
        && message[31..63] == wallet && message[63..95] == commitment
        && now - 300 <= I64Value(message[95..103]) <= now
        && (|message| == 136 ==> message[135] <= 2))
  }

  /** The parser accepts exactly those bytes; a longer receipt's session is its last 33. */
  lemma PayloadExactly(message: seq<byte>, wallet: Key, commitment: Key, purpose: Purpose, version: u16, now: i64)
    ensures var r := VerifyPayload(message, wallet, commitment, purpose, version, now);
            && (r.Ok? <==> PayloadBytes(message, wallet, commitment, purpose, version, now))
            && (r.Ok? && |message| != 136 ==> r.value == None)
            && (r.Ok? && |message| == 136 ==> r.value == Some(Session(message[103..135], message[135])))
  {
    if |message| in {103, 136} {
      var two := message[29..31];
      assert two[1..] == [message[30]] && two[1..][1..] == [];
      assert LeValue([message[30]]) == message[30];
      assert U16Value(two) == message[29] as int + 256 * (message[30] as int);
    }
  }

  lemma V2FieldSlices(prefix: seq<byte>, purpose: Purpose, version: u16, wallet: Key, commitment: Key, at: i64,
                      tail: seq<byte>)
    requires |prefix| == 28
    ensures var m := prefix + V2Fields(purpose, version, wallet, commitment, at) + tail;
            && m[..28] == prefix && m[28] == purpose.Code() && m[29..31] == LeBytes(version, 2)
            && m[31..63] == wallet && m[63..95] == commitment && m[95..103] == I64Le(at) && m[103..] == tail
  {
  }

  lemma V1Accepted(wallet: Key, commitment: Key, now: i64, at: i64)
    requires now - MAX_RECEIPT_AGE_SECS <= at <= now
    ensures VerifyPayload(V1Message(wallet, commitment, at), wallet, commitment, ForMint, 0, now) == Ok(None)
  {
    var m := V1Message(wallet, commitment, at);
    assert m[..32] == wallet && m[32..64] == commitment && m[64..72] == I64Le(at);
    I64RoundTrip(at);
  }

  lemma V2Accepted(wallet: Key, commitment: Key, purpose: Purpose, version: u16, now: i64, at: i64)
    requires now - MAX_RECEIPT_AGE_SECS <= at <= now
    ensures VerifyPayload(V2Message(purpose, version, wallet, commitment, at), wallet, commitment, purpose, version,
                          now) == Ok(None)
  {
    var m := V2Message(purpose, version, wallet, commitment, at);
    V2FieldSlices(V2_DOMAIN, purpose, version, wallet, commitment, at, []);
    assert m + [] == m;
    I64RoundTrip(at);
    U16RoundTrip(version);
  }

  lemma V3Accepted(wallet: Key, commitment: Key, purpose: Purpose, version: u16, now: i64, at: i64, session: Session)
    requires now - MAX_RECEIPT_AGE_SECS <= at <= now && session.tier <= MAX_ASSURANCE_TIER
    ensures VerifyPayload(V3Message(purpose, version, wallet, commitment, at, session), wallet, commitment, purpose,
                          version, now) == Ok(Some(session))
  {
    var m := V3Message(purpose, version, wallet, commitment, at, session);
    var tail := session.finalDigest + [session.tier];
    V2FieldSlices(V3_DOMAIN, purpose, version, wallet, commitment, at, tail);
    assert m == V3_DOMAIN + V2Fields(purpose, version, wallet, commitment, at) + tail;
    assert m[103..135] == m[103..][..32] == session.finalDigest && m[135] == session.tier;
    I64RoundTrip(at);
    U16RoundTrip(version);
  }

  /** An accepted v1 message is the encoding of its own timestamp. */
  ghost function ReadV1(message: seq<byte>, wallet: Key, commitment: Key, now: i64): (at: i64)
    requires |message| == V1_LEN && VerifyPayload(message, wallet, commitment, ForMint, 0, now).Ok?
    ensures now - MAX_RECEIPT_AGE_SECS <= at <= now && message == V1Message(wallet, commitment, at)
  {
    I64OfValue(message[64..72]);
    assert message == message[..32] + message[32..64] + message[64..72];
    I64Value(message[64..72])
  }

  ghost function ReadV2(message: seq<byte>, wallet: Key, commitment: Key, purpose: Purpose, version: u16,
                        now: i64): (at: i64)
    requires |message| != V1_LEN && VerifyPayload(message, wallet, commitment, purpose, version, now).Ok?
    ensures now - MAX_RECEIPT_AGE_SECS <= at <= now
    ensures Encodes(message, wallet, commitment, purpose, version, at,
                    VerifyPayload(message, wallet, commitment, purpose, version, now).value)
  {
    var at := I64Value(message[95..103]);
    I64OfValue(message[95..103]);
    LeOfValue(message[29..31]);
    var fields := message[28..103];
    assert fields == [message[28]] + message[29..31] + message[31..63] + message[63..95] + message[95..103];
    assert fields == V2Fields(purpose, version, wallet, commitment, at);
    assert |message| == V2_LEN ==> message == message[..28] + fields;
    assert |message| == V3_LEN ==> message == message[..28] + fields + message[103..135] + [message[135]];
    at
  }

  /** No message authorises two different transitions, at whatever times it is presented. */
  lemma OneMessageOneTransition(message: seq<byte>, w1: Key, c1: Key, p1: Purpose, v1: u16, now1: i64,
                                w2: Key, c2: Key, p2: Purpose, v2: u16, now2: i64)
    requires VerifyPayload(message, w1, c1, p1, v1, now1).Ok?
    requires VerifyPayload(message, w2, c2, p2, v2, now2).Ok?
    ensures w1 == w2 && c1 == c2 && p1 == p2 && v1 == v2
    ensures VerifyPayload(message, w1, c1, p1, v1, now1) == VerifyPayload(message, w2, c2, p2, v2, now2)
  {
    if |message| != V1_LEN {
      assert p1.Code() == p2.Code();
    }
  }

  function VerifyReceipt(instruction: Option<seq<byte>>, keys: KeyPolicy, wallet: Key, commitment: Key,
                         purpose: Purpose, version: u16, now: i64)
    : Result<Option<Session>, Error>
  {
    var message :- LoadReceipt(instruction, keys, {V1_LEN, V2_LEN, V3_LEN}, now);
    VerifyPayload(message, wallet, commitment, purpose, version, now)
  }

  // --- Update receipts ---

  datatype UpdateReceipt = UpdateReceipt(validatedAt: i64, tier: u8, sessionDigest: Option<Key>) {
    predicate WellFormed() {
      tier <= MAX_ASSURANCE_TIER && sessionDigest != Some(ZERO_KEY)
    }
  }

  function V4Bytes(wallet: Key, commitment: Key, version: u16, receipt: UpdateReceipt): (s: seq<byte>)
    ensures |s| == 136
  {
    V4_DOMAIN + [ForUpdate.Code()] + LeBytes(version, 2) + wallet + commitment + I64Le(receipt.validatedAt)
    + (if receipt.sessionDigest.Some? then receipt.sessionDigest.value else ZERO_KEY) + [receipt.tier]
  }

  function V4Preimage(wallet: Key, commitment: Key, version: u16, receipt: UpdateReceipt): Result<seq<byte>, Error> {
    if receipt.tier > MAX_ASSURANCE_TIER then Err(InvalidAssuranceTier)
    else if receipt.sessionDigest == Some(ZERO_KEY) then Err(MalformedReceiptMessage)
    else Ok(V4Bytes(wallet, commitment, version, receipt))
  }

  method BuildV4Preimage(wallet: Key, commitment: Key, version: u16, receipt: UpdateReceipt)
    returns (r: Result<seq<byte>, Error>)
    ensures r == V4Preimage(wallet, commitment, version, receipt)
  {
    if receipt.tier > MAX_ASSURANCE_TIER {
      return Err(InvalidAssuranceTier);
    }
    if receipt.sessionDigest == Some(ZERO_KEY) {
      return Err(MalformedReceiptMessage);
    }
    var preimage := new byte[136](_ => 0);
    ghost var f := V4_DOMAIN;
    CopyInto(preimage, 0, V4_DOMAIN, []);
    CopyInto(preimage, 28, [ForUpdate.Code()], f);
    f := f + [ForUpdate.Code()];
    CopyInto(preimage, 29, LeBytes(version, 2), f);
    f := f + LeBytes(version, 2);
    CopyInto(preimage, 31, wallet, f);
    f := f + wallet;
    CopyInto(preimage, 63, commitment, f);
    f := f + commitment;
    CopyInto(preimage, 95, I64Le(receipt.validatedAt), f);
    f := f + I64Le(receipt.validatedAt);
    if receipt.sessionDigest.Some? {
      CopyInto(preimage, 103, receipt.sessionDigest.value, f);
      f := f + receipt.sessionDigest.value;
    } else {
      assert f + Zeros(33) == f + ZERO_KEY + Zeros(1);
      f := f + ZERO_KEY;
    }
    CopyInto(preimage, 135, [receipt.tier], f);
    assert preimage[..] == V4Bytes(wallet, commitment, version, receipt);
    r := Ok(preimage[..]);
  }

  lemma V4Slices(front: seq<byte>, back: seq<byte>)
    requires |front| == 95 && |back| == 41
    ensures var s := front + back;
            && s[..28] == front[..28] && s[28] == front[28] && s[29..31] == front[29..31] && s[31..63] == front[31..63]
            && s[63..95] == front[63..95] && s[95..103] == back[..8] && s[103..135] == back[8..40] && s[135] == back[40]
  {
  }

  /** The preimage, offset by offset. */
  lemma V4Offsets(wallet: Key, commitment: Key, version: u16, receipt: UpdateReceipt)
    ensures var s := V4Bytes(wallet, commitment, version, receipt);
            && s[..28] == Ascii("entros-validator-receipt-v4") + [0] && s[28] == 4
            && U16Value(s[29..31]) == version && s[31..63] == wallet && s[63..95] == commitment
            && I64Value(s[95..103]) == receipt.validatedAt
            && s[103..135] == (if receipt.sessionDigest.Some? then receipt.sessionDigest.value else ZERO_KEY)
            && s[135] == receipt.tier
  {
    var s := V4Bytes(wallet, commitment, version, receipt);
    var front := V4_DOMAIN + [4] + LeBytes(version, 2) + wallet + commitment;
    var digest := if receipt.sessionDigest.Some? then receipt.sessionDigest.value else ZERO_KEY;
    var back := I64Le(receipt.validatedAt) + digest + [receipt.tier];
    assert s == front + back;
    assert front[..28] == V4_DOMAIN && front[28] == 4 && front[29..31] == LeBytes(version, 2);
    assert front[31..63] == wallet && front[63..95] == commitment;
    assert back[..8] == I64Le(receipt.validatedAt) && back[8..40] == digest && back[40] == receipt.tier;
    V4Slices(front, back);
    U16RoundTrip(version);
    I64RoundTrip(receipt.validatedAt);
  }

  /** Every field is bound, and a missing session cannot pass for a present one. */
  lemma V4Injective(w1: Key, c1: Key, v1: u16, r1: UpdateReceipt, w2: Key, c2: Key, v2: u16, r2: UpdateReceipt)
    requires r1.WellFormed() && r2.WellFormed()
    requires V4Bytes(w1, c1, v1, r1) == V4Bytes(w2, c2, v2, r2)
    ensures w1 == w2 && c1 == c2 && v1 == v2 && r1 == r2
  {
    var d1 := if r1.sessionDigest.Some? then r1.sessionDigest.value else ZERO_KEY;
    var d2 := if r2.sessionDigest.Some? then r2.sessionDigest.value else ZERO_KEY;
    var h := V4_DOMAIN + [ForUpdate.Code()];
    var a1, a2 := h + LeBytes(v1, 2), h + LeBytes(v2, 2);
    AppendInjective(a1 + w1 + c1 + I64Le(r1.validatedAt) + d1, [r1.tier], a2 + w2 + c2 + I64Le(r2.validatedAt) + d2,
                    [r2.tier]);
    AppendInjective(a1 + w1 + c1 + I64Le(r1.validatedAt), d1, a2 + w2 + c2 + I64Le(r2.validatedAt), d2);
    AppendInjective(a1 + w1 + c1, I64Le(r1.validatedAt), a2 + w2 + c2, I64Le(r2.validatedAt));
    AppendInjective(a1 + w1, c1, a2 + w2, c2);
    AppendInjective(a1, w1, a2, w2);
    AppendInjective(h, LeBytes(v1, 2), h, LeBytes(v2, 2));
    I64RoundTrip(r1.validatedAt);
    I64RoundTrip(r2.validatedAt);
    Pow256Small();
    LeBytesInjective(v1, v2, 2);
  }

  function VerifyUpdateReceipt(hash: Hash, instruction: Option<seq<byte>>, keys: KeyPolicy, wallet: Key,
                               commitment: Key, version: u16, receipt: UpdateReceipt, now: i64)
    : Result<Option<Session>, Error>
  {
    var signed :- LoadReceipt(instruction, keys, {V4_DIGEST_LEN}, now);
    var preimage :- V4Preimage(wallet, commitment, version, receipt);
    :- Need(signed == hash(preimage), ReceiptCommitmentMismatch);
    :- CheckAge(receipt.validatedAt, now);
    Ok(if receipt.sessionDigest.Some? then Some(Session(receipt.sessionDigest.value, receipt.tier)) else None)
  }

  /** One signed instruction authorises one update: accepting it for two different updates exhibits
      a hash collision. And no signed instruction serves both an update and another purpose. */
  lemma UpdateReceiptBinds(hash: Hash, instruction: Option<seq<byte>>, k1: KeyPolicy, w1: Key, c1: Key, v1: u16,
                           r1: UpdateReceipt, now1: i64,
                           k2: KeyPolicy, w2: Key, c2: Key, v2: u16, r2: UpdateReceipt, now2: i64, purpose: Purpose)
    requires VerifyUpdateReceipt(hash, instruction, k1, w1, c1, v1, r1, now1).Ok?
    ensures VerifyUpdateReceipt(hash, instruction, k2, w2, c2, v2, r2, now2).Ok? ==>
              (w1 == w2 && c1 == c2 && v1 == v2 && r1 == r2)
              || Collision(hash, V4Bytes(w1, c1, v1, r1), V4Bytes(w2, c2, v2, r2))
    ensures VerifyReceipt(instruction, k2, w2, c2, purpose, v2, now2).Err?
  {
    if VerifyUpdateReceipt(hash, instruction, k2, w2, c2, v2, r2, now2).Ok?
       && V4Bytes(w1, c1, v1, r1) == V4Bytes(w2, c2, v2, r2)
    {
      V4Injective(w1, c1, v1, r1, w2, c2, v2, r2);
    }
  }
}
