/** The protocol configuration as a record, and the registry instructions on it. */
module Config {
  import opened Bytes
  import opened Errors
  import opened Receipts

  const MAX_GRACE_PERIOD_SECS: i64 := 86_400

  datatype Config = Config(
    admin: Key,
    minStake: u64,
    challengeExpiry: i64,
    maxTrustScore: u16,
    baseTrustIncrement: u16,
    bump: byte,
    verificationFee: u64,
    migrationFee: u64,
    validator: Key,
    current: u16,
    minimum: u16,
    pending: Key,
    secondary: Key,
    secondaryUntil: i64)
  {
    function Keys(): KeyPolicy { KeyPolicy(validator, secondary, secondaryUntil) }
  }

  datatype ConfigOp =
    | SetValidator(admin: Key, key: Key)
    | RotateValidator(admin: Key, key: Key, grace: i64)
    | ProposeAuthority(admin: Key, authority: Key)
    | AcceptAuthority(signer: Key)
    | SetVersions(admin: Key, newCurrent: u16, newMinimum: u16)
    | MigrateAdmin(newAdmin: Key, programData: seq<byte>)
    | UpdateFee(admin: Key, fee: u64)

  function Initialized(admin: Key, minStake: u64, challengeExpiry: i64, maxScore: u16, inc: u16, bump: byte, fee: u64,
                       validator: Key)
    : Result<Config, Error>
  {
    if validator == ZERO_KEY then Err(InvalidValidatorPubkey)
    else
      Ok(Config(admin, minStake, challengeExpiry, maxScore, inc, bump, fee, 0, validator, 0, 0, ZERO_KEY, ZERO_KEY, 0))
  }

  /** The grace-window key after a rotation from `previous` to `key` at `now`. */
  function Grace(previous: Key, key: Key, grace: i64, now: i64): Result<(Key, i64), Error> {
    if grace > 0 && previous != ZERO_KEY && previous != key then
      :- Need(now + grace <= I64_MAX, ArithmeticOverflow);
      Ok((previous, now + grace))
    else Ok((ZERO_KEY, 0))
  }

  /** `programdata`: state tag and slot, an option tag, then the upgrade authority. */
  function UpgradeAuthority(programData: seq<byte>): Option<Key> {
    if |programData| >= 45 && programData[12] == 1 then Some(programData[13..45]) else None
  }

  function CheckUpgradeAuthority(programData: seq<byte>, signer: Key): Outcome<Error> {
    var authority := UpgradeAuthority(programData);
    if authority.None? then Fail(ProgramDataBytes)
    else if authority.value != signer then Fail(WrongUpgradeAuthority)
    else Pass
  }

  function CheckTransition(current: u16, minimum: u16, newCurrent: u16, newMinimum: u16): Outcome<Error> {
    if newMinimum > newCurrent then Fail(InvalidProjectionVersionRange)
    else if newCurrent < current then Fail(ProjectionVersionRollback)
    else if newMinimum < minimum then Fail(MinimumProjectionVersionRollback)
    else Pass
  }

  /** One registry instruction on the record. */
  function Step(c: Config, op: ConfigOp, now: i64): Result<Config, Error> {
    match op
    case SetValidator(admin, key) =>
      :- Need(key != ZERO_KEY, InvalidValidatorPubkey);
      :- Need(c.admin == admin, Unauthorized);
      Ok(c.(validator := key, secondary := ZERO_KEY, secondaryUntil := 0))
    case RotateValidator(admin, key, grace) =>
      :- Need(key != ZERO_KEY, InvalidValidatorPubkey);
      :- Need(0 <= grace <= MAX_GRACE_PERIOD_SECS, InvalidValidatorGracePeriod);
      :- Need(c.admin == admin, Unauthorized);
      var window :- Grace(c.validator, key, grace, now);
      Ok(c.(validator := key, secondary := window.0, secondaryUntil := window.1))
    case ProposeAuthority(admin, authority) =>
      :- Need(authority != ZERO_KEY, InvalidPendingAuthority);
      :- Need(c.admin == admin, Unauthorized);
      Ok(c.(pending := authority))
    case AcceptAuthority(signer) =>
      :- Need(c.pending != ZERO_KEY, NoPendingAuthority);
      :- Need(c.pending == signer, Unauthorized);
      Ok(c.(admin := c.pending, pending := ZERO_KEY))
    case SetVersions(admin, newCurrent, newMinimum) =>
      :- Need(c.admin == admin, Unauthorized);
      :- Need(c.minimum <= c.current, InvalidProtocolConfig);
      :- CheckTransition(c.current, c.minimum, newCurrent, newMinimum);
      Ok(c.(current := newCurrent, minimum := newMinimum))
    case MigrateAdmin(newAdmin, programData) =>
      :- CheckUpgradeAuthority(programData, newAdmin);
      Ok(c.(admin := newAdmin))
    case UpdateFee(admin, fee) =>
      :- Need(c.admin == admin, Unauthorized);
      Ok(c.(verificationFee := fee))
  }
}

/** The configuration account as raw bytes. The account has grown by appending, so it may still
    have any of five lengths; every instruction works on the bytes it finds. */
module ConfigAccounts {
  import opened Bytes
  import opened Errors
  import opened Receipts
  import opened Config

  const LEN := 185

  /** Before migration_fee, before validator_pubkey, before the projection versions, before
      rollover, current. */
  predicate KnownLength(data: seq<byte>) {
    |data| in {69, 77, 109, 113, 185}
  }

  /** The record the current layout stores. */
  function Decode(data: seq<byte>): Config
    requires |data| == LEN
  {
    Config(data[8..40], U64Value(data[40..48]), I64Value(data[48..56]), U16Value(data[56..58]),
           U16Value(data[58..60]), data[60], U64Value(data[61..69]), U64Value(data[69..77]),
           data[77..109], U16Value(data[109..111]), U16Value(data[111..113]),
           data[113..145], data[145..177], I64Value(data[177..185]))
  }

  /** The record any known layout stands for. */
  function View(data: seq<byte>): Config
    requires |data| <= LEN
  {
    Decode(Pad(data, LEN))
  }

  function EncodeHead(tag: seq<byte>, c: Config): (r: seq<byte>)
    requires |tag| == 8
    ensures |r| == 77
  {
    tag + c.admin + LeBytes(c.minStake, 8) + I64Le(c.challengeExpiry) + LeBytes(c.maxTrustScore, 2)
    + LeBytes(c.baseTrustIncrement, 2) + [c.bump] + LeBytes(c.verificationFee, 8) + LeBytes(c.migrationFee, 8)
  }

  function EncodeTail(c: Config): (r: seq<byte>)
    ensures |r| == LEN - 77
  {
    c.validator + LeBytes(c.current, 2) + LeBytes(c.minimum, 2) + c.pending + c.secondary + I64Le(c.secondaryUntil)
  }

  function Encode(tag: seq<byte>, c: Config): (r: seq<byte>)
    requires |tag| == 8
    ensures |r| == LEN
  {
    EncodeHead(tag, c) + EncodeTail(c)
  }

  lemma HeadSlices(tag: seq<byte>, c: Config)
    requires |tag| == 8
    ensures var d := EncodeHead(tag, c);
            && d[..8] == tag && d[8..40] == c.admin && d[40..48] == LeBytes(c.minStake, 8)
            && d[48..56] == I64Le(c.challengeExpiry) && d[56..58] == LeBytes(c.maxTrustScore, 2)
            && d[58..60] == LeBytes(c.baseTrustIncrement, 2) && d[60] == c.bump
            && d[61..69] == LeBytes(c.verificationFee, 8) && d[69..77] == LeBytes(c.migrationFee, 8)
  {
    var front := tag + c.admin + LeBytes(c.minStake, 8) + I64Le(c.challengeExpiry);
    assert front[..8] == tag && front[8..40] == c.admin && front[40..48] == LeBytes(c.minStake, 8)
           && front[48..56] == I64Le(c.challengeExpiry);
    assert EncodeHead(tag, c)[..56] == front;
  }

  lemma TailSlices(c: Config)
    ensures var d := EncodeTail(c);
            && d[..32] == c.validator && d[32..34] == LeBytes(c.current, 2)
            && d[34..36] == LeBytes(c.minimum, 2) && d[36..68] == c.pending
            && d[68..100] == c.secondary && d[100..108] == I64Le(c.secondaryUntil)
  {
  }

  lemma EncodeSlices(tag: seq<byte>, c: Config, lo: nat, hi: nat)
    requires |tag| == 8 && lo <= hi <= LEN
    ensures hi <= 77 ==> Encode(tag, c)[lo..hi] == EncodeHead(tag, c)[lo..hi]
    ensures lo >= 77 ==> Encode(tag, c)[lo..hi] == EncodeTail(c)[lo - 77..hi - 77]
  {
    SliceOfAppend(EncodeHead(tag, c), EncodeTail(c), lo, hi);
  }

  /** Serialising a record and decoding it gives the record back. */
  lemma DecodeEncode(tag: seq<byte>, c: Config)
    requires |tag| == 8
    ensures Decode(Encode(tag, c)) == c && Encode(tag, c)[..8] == tag
  {
    HeadSlices(tag, c);
    TailSlices(c);
    EncodeSlices(tag, c, 0, 8);
    EncodeSlices(tag, c, 8, 40);
    EncodeSlices(tag, c, 40, 48);
    EncodeSlices(tag, c, 48, 56);
    EncodeSlices(tag, c, 56, 58);
    EncodeSlices(tag, c, 58, 60);
    EncodeSlices(tag, c, 61, 69);
    EncodeSlices(tag, c, 69, 77);
    EncodeSlices(tag, c, 77, 109);
    EncodeSlices(tag, c, 109, 111);
    EncodeSlices(tag, c, 111, 113);
    EncodeSlices(tag, c, 113, 145);
    EncodeSlices(tag, c, 145, 177);
    EncodeSlices(tag, c, 177, 185);
    U64RoundTrip(c.minStake);
    I64RoundTrip(c.challengeExpiry);
    U16RoundTrip(c.maxTrustScore);
    U16RoundTrip(c.baseTrustIncrement);
    U64RoundTrip(c.verificationFee);
    U64RoundTrip(c.migrationFee);
    U16RoundTrip(c.current);
    U16RoundTrip(c.minimum);
    I64RoundTrip(c.secondaryUntil);
  }

  lemma ViewIsHead(data: seq<byte>)
    requires |data| == LEN
    ensures EncodeHead(data[..8], Decode(data)) == data[..77]
  {
    LeOfValue(data[40..48]);
    I64OfValue(data[48..56]);
    LeOfValue(data[56..58]);
    LeOfValue(data[58..60]);
    LeOfValue(data[61..69]);
    LeOfValue(data[69..77]);
    assert data[..77] == data[..8] + data[8..40] + data[40..48] + data[48..56] + data[56..58] + data[58..60]
                         + [data[60]] + data[61..69] + data[69..77];
  }

  lemma ViewIsTail(data: seq<byte>)
    requires |data| == LEN
    ensures EncodeTail(Decode(data)) == data[77..]
  {
    LeOfValue(data[109..111]);
    LeOfValue(data[111..113]);
    I64OfValue(data[177..185]);
    assert data[77..]
           == data[77..109] + data[109..111] + data[111..113] + data[113..145] + data[145..177] + data[177..185];
  }

  /** The record and the tag are the whole account: no byte escapes the view. */
  lemma ViewIsEverything(data: seq<byte>)
    requires |data| == LEN
    ensures Encode(data[..8], Decode(data)) == data
  {
    ViewIsHead(data);
    ViewIsTail(data);
  }

  /** Writing one field's bytes changes that field of the record and no other. */
  lemma SpliceFields(data: seq<byte>, at: nat, src: seq<byte>)
    requires |data| == LEN && at + |src| <= LEN
    ensures var c, d := Decode(data), Splice(data, at, src);
            && (at >= 8 ==> d[..8] == data[..8])
            && (at == 8 && |src| == 32 ==> Decode(d) == c.(admin := src))
            && (at == 61 && |src| == 8 ==> Decode(d) == c.(verificationFee := U64Value(src)))
            && (at == 77 && |src| == 32 ==> Decode(d) == c.(validator := src))
            && (at == 109 && |src| == 2 ==> Decode(d) == c.(current := U16Value(src)))
            && (at == 111 && |src| == 2 ==> Decode(d) == c.(minimum := U16Value(src)))
            && (at == 113 && |src| == 32 ==> Decode(d) == c.(pending := src))
            && (at == 145 && |src| == 32 ==> Decode(d) == c.(secondary := src))
            && (at == 177 && |src| == 8 ==> Decode(d) == c.(secondaryUntil := I64Value(src)))
  {
    SpliceSlices(data, at, src, 8, 40);
    SpliceSlices(data, at, src, 40, 48);
    SpliceSlices(data, at, src, 48, 56);
    SpliceSlices(data, at, src, 56, 58);
    SpliceSlices(data, at, src, 58, 60);
    SpliceSlices(data, at, src, 61, 69);
    SpliceSlices(data, at, src, 69, 77);
    SpliceSlices(data, at, src, 77, 109);
    SpliceSlices(data, at, src, 109, 111);
    SpliceSlices(data, at, src, 111, 113);
    SpliceSlices(data, at, src, 113, 145);
    SpliceSlices(data, at, src, 145, 177);
    SpliceSlices(data, at, src, 177, 185);
  }

  // --- The anchor program's readers ---

  function ReadKeyPolicy(data: seq<byte>): KeyPolicy {
    KeyPolicy(if |data| >= 109 then data[77..109] else ZERO_KEY,
              if |data| >= 185 then data[145..177] else ZERO_KEY,
              if |data| >= 185 then I64Value(data[177..185]) else 0)
  }

  /** (current, minimum) */
  function ReadProjectionPolicy(data: seq<byte>): Result<(u16, u16), Error> {
    if |data| <= 109 then Ok((0, 0))
    else
      :- Need(|data| >= 113, InvalidProtocolConfig);
      var current, minimum := U16Value(data[109..111]), U16Value(data[111..113]);
      :- Need(minimum <= current, InvalidProtocolConfig);
      Ok((current, minimum))
  }

  function ReadMigrationFee(data: seq<byte>): u64 {
    if |data| >= 77 then U64Value(data[69..77]) else 0
  }

  lemma KeysSeeView(data: seq<byte>)
    requires KnownLength(data)
    ensures ReadKeyPolicy(data) == View(data).Keys()
  {
    ZeroFields();
    PadSlices(data, LEN, 77, 109);
    PadSlices(data, LEN, 145, 177);
    PadSlices(data, LEN, 177, 185);
  }

  lemma VersionsSeeView(data: seq<byte>)
    requires KnownLength(data)
    ensures var c := View(data);
            ReadProjectionPolicy(data) == (if c.minimum <= c.current then Ok((c.current, c.minimum))
                                           else Err(InvalidProtocolConfig))
  {
    ZeroFields();
    PadSlices(data, LEN, 109, 111);
    PadSlices(data, LEN, 111, 113);
  }

  lemma FeeSeesView(data: seq<byte>)
    requires KnownLength(data)
    ensures ReadMigrationFee(data) == View(data).migrationFee
  {
    ZeroFields();
    PadSlices(data, LEN, 69, 77);
  }

  /** Whatever its length, both readers answer from the record the account stands for; so growing
      the account changes no answer. */
  lemma ReadersSeeView(data: seq<byte>)
    requires KnownLength(data)
    ensures var c := View(data);
            && ReadKeyPolicy(data) == c.Keys()
            && ReadProjectionPolicy(data) == (if c.minimum <= c.current then Ok((c.current, c.minimum))
                                              else Err(InvalidProtocolConfig))
            && ReadMigrationFee(data) == c.migrationFee
            && View(Pad(data, LEN)) == c
  {
    KeysSeeView(data);
    VersionsSeeView(data);
    FeeSeesView(data);
    assert Pad(Pad(data, LEN), LEN) == Pad(data, LEN);
  }

  /** For other lengths growth can change the projection reader's answer, exactly when the account
      ends inside the two version fields and the zero-filled versions are in order. */
  lemma GrowthMovesProjectionReader(data: seq<byte>)
    requires |data| <= LEN
    ensures ReadProjectionPolicy(Pad(data, LEN)) == ReadProjectionPolicy(data)
            <==> !(109 < |data| < 113 && View(data).minimum <= View(data).current)
  {
    ZeroFields();
    PadSlices(data, LEN, 109, 111);
    PadSlices(data, LEN, 111, 113);
  }

  // --- The raw-byte instructions ---

  /** An instruction on the bytes did what the record machine does: same error and no change, or
      the new record in the current layout under the old tag. */
  ghost predicate Simulates(before: seq<byte>, after: seq<byte>, op: ConfigOp, now: i64, r: Outcome<Error>)
    requires KnownLength(before)
  {
    match Step(View(before), op, now)
    case Err(e) => r == Fail(e) && after == before
    case Ok(c) => r == Pass && |after| == LEN && Decode(after) == c && after[..8] == before[..8]
  }

  lemma ViewReads(data: seq<byte>)
    requires KnownLength(data)
    ensures View(data).admin == data[8..40]
    ensures View(data).validator == (if |data| >= 109 then data[77..109] else ZERO_KEY)
    ensures View(data).pending == (if |data| >= 145 then data[113..145] else ZERO_KEY)
    ensures Pad(data, LEN)[..8] == data[..8]
  {
    PadSlices(data, LEN, 8, 40);
    PadSlices(data, LEN, 77, 109);
    PadSlices(data, LEN, 113, 145);
  }

  class ConfigAccount {
    var data: seq<byte>

    constructor ()
      ensures data == []
    {
      data := [];
    }

    /** `initialize_protocol`: once, with the full layout, the initial values and a non-zero key. */
    method InitializeProtocol(tag: seq<byte>, admin: Key, minStake: u64, challengeExpiry: i64, maxScore: u16, inc: u16,
                              bump: byte, fee: u64, validator: Key)
      returns (r: Outcome<Error>)
      requires |tag| == 8
      modifies this
      ensures r == (if old(data) != [] then Fail(AccountInUse)
                    else if validator == ZERO_KEY then Fail(InvalidValidatorPubkey) else Pass)
      ensures r.Fail? ==> data == old(data)
      ensures r.Pass? ==> |data| == LEN && data[..8] == tag
                          && Ok(Decode(data)) == Initialized(admin, minStake, challengeExpiry, maxScore, inc, bump,
                                                             fee, validator)
                          && ReadKeyPolicy(data) == KeyPolicy(validator, ZERO_KEY, 0)
                          && ReadProjectionPolicy(data) == Ok((0, 0))
    {
      if data != [] {
        return Fail(AccountInUse);
      }
      if validator == ZERO_KEY {
        return Fail(InvalidValidatorPubkey);
      }
      var c := Config(admin, minStake, challengeExpiry, maxScore, inc, bump, fee, 0, validator, 0, 0, ZERO_KEY,
                      ZERO_KEY, 0);
      data := Encode(tag, c);
      DecodeEncode(tag, c);
      r := Pass;
    }

    /** `ensure_protocol_config_len`; resizing zero-fills. */
    method Grow()
      requires |data| <= LEN
      modifies this
      ensures data == Pad(old(data), LEN)
    {
      if |data| < LEN {
        data := data + Zeros(LEN - |data|);
      }
    }

    method Write(at: nat, src: seq<byte>)
      requires at + |src| <= |data|
      modifies this
      ensures data == Splice(old(data), at, src)
    {
      data := Splice(data, at, src);
    }

    /** The three writes both key instructions end with. */
    method InstallKeys(key: Key, secondary: Key, until: seq<byte>)
      requires |data| == LEN && |until| == 8
      modifies this
      ensures |data| == LEN && data[..8] == old(data)[..8]
      ensures data[..77] == old(data)[..77] && data[109..145] == old(data)[109..145]
      ensures data[77..109] == key && data[145..177] == secondary && data[177..] == until
      ensures Decode(data) == Decode(old(data)).(validator := key, secondary := secondary,
                                                 secondaryUntil := I64Value(until))
    {
      InstallPrimary(key);
      InstallSecondary(secondary, until);
    }

    method InstallPrimary(key: Key)
      requires |data| == LEN
      modifies this
      ensures |data| == LEN && data[..77] == old(data)[..77] && data[77..109] == key && data[109..] == old(data)[109..]
      ensures Decode(data) == Decode(old(data)).(validator := key)
    {
      SpliceFields(data, 77, key);
      Write(77, key);
    }

    method InstallSecondary(secondary: Key, until: seq<byte>)
      requires |data| == LEN && |until| == 8
      modifies this
      ensures |data| == LEN && data[..145] == old(data)[..145]
      ensures data[145..177] == secondary && data[177..] == until
      ensures Decode(data) == Decode(old(data)).(secondary := secondary, secondaryUntil := I64Value(until))
    {
      SpliceFields(data, 145, secondary);
      Write(145, secondary);
      SpliceFields(data, 177, until);
      Write(177, until);
    }

    method SetValidatorPubkey(admin: Key, key: Key, now: i64) returns (r: Outcome<Error>)
      requires KnownLength(data)
      modifies this
      ensures Simulates(old(data), data, SetValidator(admin, key), now, r)
      ensures r.Pass? <==> key != ZERO_KEY && old(data)[8..40] == admin
      ensures r.Pass? ==> var p := Pad(old(data), 185);
                          && data[..77] == p[..77] && data[77..109] == key && data[109..145] == p[109..145]
                          && data[145..177] == ZERO_KEY && data[177..] == Zeros(8)
      ensures r.Pass? ==> ReadKeyPolicy(data) == KeyPolicy(key, ZERO_KEY, 0)
    {
      ViewReads(data);
      if key == ZERO_KEY {
        return Fail(InvalidValidatorPubkey);
      }
      if data[8..40] != admin {
        return Fail(Unauthorized);
      }
      ghost var c := View(data).(validator := key, secondary := ZERO_KEY, secondaryUntil := 0);
      assert Step(View(data), SetValidator(admin, key), now) == Ok(c);
      Grow();
      ZeroFields();
      InstallKeys(key, ZERO_KEY, Zeros(8));
      assert Decode(data) == c;
      r := Pass;
    }

    method RotateValidatorPubkey(admin: Key, key: Key, grace: i64, now: i64) returns (r: Outcome<Error>)
      requires KnownLength(data)
      modifies this
      ensures Simulates(old(data), data, RotateValidator(admin, key, grace), now, r)
      ensures var previous := if old(|data|) >= 109 then old(data)[77..109] else ZERO_KEY;
              var opens := grace > 0 && previous != ZERO_KEY && previous != key;
              && (r.Pass? <==> key != ZERO_KEY && 0 <= grace <= 86_400 && old(data)[8..40] == admin
                               && (opens ==> now + grace <= I64_MAX))
              && (r.Pass? ==> ReadKeyPolicy(data) == if opens then KeyPolicy(key, previous, now + grace)
                                                     else KeyPolicy(key, ZERO_KEY, 0))
      ensures r.Pass? ==> var p := Pad(old(data), 185);
                          && data[..77] == p[..77] && data[77..109] == key && data[109..145] == p[109..145]
    {
      ViewReads(data);
      if key == ZERO_KEY {
        return Fail(InvalidValidatorPubkey);
      }
      if !(0 <= grace <= MAX_GRACE_PERIOD_SECS) {
        return Fail(InvalidValidatorGracePeriod);
      }
      if data[8..40] != admin {
        return Fail(Unauthorized);
      }
      var previous := if |data| >= 109 then data[77..109] else ZERO_KEY;
      assert previous == View(data).validator;
      var window := Grace(previous, key, grace, now);
      if window.Err? {
        return Fail(ArithmeticOverflow);
      }
      var secondary, until := window.value.0, window.value.1;
      ghost var c := View(data).(validator := key, secondary := secondary, secondaryUntil := until);
      assert Step(View(data), RotateValidator(admin, key, grace), now) == Ok(c);
      Grow();
      I64RoundTrip(until);
      InstallKeys(key, secondary, I64Le(until));
      assert Decode(data) == c;
      r := Pass;
    }

    method Propose(admin: Key, authority: Key, now: i64) returns (r: Outcome<Error>)
      requires KnownLength(data)
      modifies this
      ensures Simulates(old(data), data, ProposeAuthority(admin, authority), now, r)
      ensures r.Pass? <==> authority != ZERO_KEY && old(data)[8..40] == admin
      ensures r.Pass? ==> var p := Pad(old(data), 185); data == p[..113] + authority + p[145..]
    {
      ViewReads(data);
      if authority == ZERO_KEY {
        return Fail(InvalidPendingAuthority);
      }
      if data[8..40] != admin {
        return Fail(Unauthorized);
      }
      ghost var c := View(data).(pending := authority);
      assert Step(View(data), ProposeAuthority(admin, authority), now) == Ok(c);
      Grow();
      SpliceFields(data, 113, authority);
      Write(113, authority);
      assert Decode(data) == c;
      r := Pass;
    }

    method InstallAdmin(admin: Key)
      requires |data| == LEN
      modifies this
      ensures |data| == LEN && data[..8] == old(data)[..8]
      ensures data == old(data)[..8] + admin + old(data)[40..]
      ensures Decode(data) == Decode(old(data)).(admin := admin)
    {
      SpliceFields(data, 8, admin);
      Write(8, admin);
    }

    /** The two writes of an accepted hand-over. */
    method HandOver(admin: Key)
      requires |data| == LEN
      modifies this
      ensures |data| == LEN && data[..8] == old(data)[..8]
      ensures data[8..40] == admin && data[40..113] == old(data)[40..113]
      ensures data[113..145] == ZERO_KEY && data[145..] == old(data)[145..]
      ensures Decode(data) == Decode(old(data)).(admin := admin, pending := ZERO_KEY)
    {
      InstallAdmin(admin);
      SpliceFields(data, 113, ZERO_KEY);
      Write(113, ZERO_KEY);
    }

    method Accept(signer: Key, now: i64) returns (r: Outcome<Error>)
      requires KnownLength(data)
      modifies this
      ensures Simulates(old(data), data, AcceptAuthority(signer), now, r)
      ensures r.Pass? <==> old(|data|) == 185 && old(data)[113..145] == signer && signer != ZERO_KEY
      ensures r.Pass? ==> && data[..8] == old(data)[..8] && data[8..40] == signer && data[40..113] == old(data)[40..113]
                          && data[113..145] == ZERO_KEY && data[145..] == old(data)[145..]
    {
      ViewReads(data);
      if |data| < 145 {
        return Fail(NoPendingAuthority);
      }
      var pending := data[113..145];
      if pending == ZERO_KEY {
        return Fail(NoPendingAuthority);
      }
      if pending != signer {
        return Fail(Unauthorized);
      }
      ghost var c := View(data).(admin := signer, pending := ZERO_KEY);
      assert Step(View(data), AcceptAuthority(signer), now) == Ok(c);
      assert Pad(data, LEN) == data;
      HandOver(pending);
      assert Decode(data) == c;
      r := Pass;
    }

    method InstallVersions(newCurrent: u16, newMinimum: u16)
      requires |data| == LEN
      modifies this
      ensures |data| == LEN && data[..8] == old(data)[..8]
      ensures data[..109] == old(data)[..109] && data[109..111] == LeBytes(newCurrent, 2)
      ensures data[111..113] == LeBytes(newMinimum, 2) && data[113..] == old(data)[113..]
      ensures Decode(data) == Decode(old(data)).(current := newCurrent, minimum := newMinimum)
    {
      SpliceFields(data, 109, LeBytes(newCurrent, 2));
      Write(109, LeBytes(newCurrent, 2));
      SpliceFields(data, 111, LeBytes(newMinimum, 2));
      Write(111, LeBytes(newMinimum, 2));
      U16RoundTrip(newCurrent);
      U16RoundTrip(newMinimum);
    }

    method SetProjectionVersions(admin: Key, newCurrent: u16, newMinimum: u16, now: i64) returns (r: Outcome<Error>)
      requires KnownLength(data)
      modifies this
      ensures Simulates(old(data), data, SetVersions(admin, newCurrent, newMinimum), now, r)
      ensures var current := if old(|data|) >= 113 then U16Value(old(data)[109..111]) else 0;
              var minimum := if old(|data|) >= 113 then U16Value(old(data)[111..113]) else 0;
              r.Pass? <==> old(data)[8..40] == admin && minimum <= current
                           && newMinimum <= newCurrent && current <= newCurrent && minimum <= newMinimum
      ensures r.Pass? ==> var p := Pad(old(data), 185);
                          && data[..109] == p[..109] && data[109..111] == LeBytes(newCurrent, 2)
                          && data[111..113] == LeBytes(newMinimum, 2) && data[113..] == p[113..]
      ensures r.Pass? ==> ReadProjectionPolicy(data) == Ok((newCurrent, newMinimum))
    {
      ViewReads(data);
      VersionsSeeView(data);
      if data[8..40] != admin {
        return Fail(Unauthorized);
      }
      var stored := ReadProjectionPolicy(data);
      if stored.Err? {
        return Fail(InvalidProtocolConfig);
      }
      var check := CheckTransition(stored.value.0, stored.value.1, newCurrent, newMinimum);
      if check.Fail? {
        return check;
      }
      ghost var c := View(data).(current := newCurrent, minimum := newMinimum);
      assert Step(View(data), SetVersions(admin, newCurrent, newMinimum), now) == Ok(c);
      Grow();
      InstallVersions(newCurrent, newMinimum);
      assert Decode(data) == c;
      r := Pass;
    }

    method MigrateAuthority(newAdmin: Key, programData: seq<byte>, now: i64) returns (r: Outcome<Error>)
      requires KnownLength(data)
      modifies this
      ensures Simulates(old(data), data, MigrateAdmin(newAdmin, programData), now, r)
      ensures r.Pass? <==> |programData| >= 45 && programData[12] == 1 && programData[13..45] == newAdmin
      ensures r.Pass? ==> var p := Pad(old(data), 185); data == p[..8] + newAdmin + p[40..]
    {
      ViewReads(data);
      var check := CheckUpgradeAuthority(programData, newAdmin);
      if check.Fail? {
        return check;
      }
      ghost var c := View(data).(admin := newAdmin);
      assert Step(View(data), MigrateAdmin(newAdmin, programData), now) == Ok(c);
      Grow();
      InstallAdmin(newAdmin);
      assert Decode(data) == c;
      r := Pass;
    }

    /** The one typed instruction: the account is deserialised before it could be resized, so every
        legacy layout is refused. */
    method UpdateProtocolConfig(admin: Key, fee: u64, now: i64) returns (r: Outcome<Error>)
      requires KnownLength(data)
      modifies this
      ensures old(|data|) < LEN ==> r == Fail(AccountDidNotDeserialize) && data == old(data)
      ensures old(|data|) == LEN ==> Simulates(old(data), data, UpdateFee(admin, fee), now, r)
      ensures r.Pass? <==> old(|data|) == 185 && old(data)[8..40] == admin
      ensures r.Pass? ==> data == old(data)[..61] + LeBytes(fee, 8) + old(data)[69..]
    {
      ViewReads(data);
      if |data| < LEN {
        return Fail(AccountDidNotDeserialize);
      }
      assert Pad(data, LEN) == data;
      if data[8..40] != admin {
        return Fail(Unauthorized);
      }
      SpliceFields(data, 61, LeBytes(fee, 8));
      Write(61, LeBytes(fee, 8));
      U64RoundTrip(fee);
      r := Pass;
    }
  }
}
