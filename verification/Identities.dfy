/** The identity account: its record, its byte layout, and the growth of older layouts. */
module Identities {
  import opened Bytes
  import opened Errors
  import opened Score

  datatype Identity = Identity(
    owner: Key,
    created: i64,
    lastVerified: i64,
    count: u32,
    score: u16,
    commitment: Key,
    mint: Key,
    bump: byte,
    ring: Ring,
    lastReset: i64,
    newWallet: Key,
    version: u16,
    lastRebaseline: i64)

  const LEN := 593

  // --- The activity ring as bytes ---

  function TimesBytes(times: seq<i64>): (s: seq<byte>)
    ensures |s| == 8 * |times|
  {
    if times == [] then [] else I64Le(times[0]) + TimesBytes(times[1..])
  }

  lemma {:induction false} TimesSlice(times: seq<i64>, i: nat)
    requires i < |times|
    ensures TimesBytes(times)[8 * i..8 * i + 8] == I64Le(times[i])
  {
    if i > 0 {
      TimesSlice(times[1..], i - 1);
      assert TimesBytes(times)[8 * i..8 * i + 8] == TimesBytes(times[1..])[8 * i - 8..8 * i];
    }
  }

  lemma {:induction false} TimesFromSlices(times: seq<i64>, s: seq<byte>)
    requires |s| == 8 * |times|
    requires forall i :: 0 <= i < |times| ==> s[8 * i..8 * i + 8] == I64Le(times[i])
    ensures s == TimesBytes(times)
  {
    if times != [] {
      var rest := s[8..];
      forall i | 0 <= i < |times| - 1 ensures rest[8 * i..8 * i + 8] == I64Le(times[1..][i]) {
        assert rest[8 * i..8 * i + 8] == s[8 * (i + 1)..8 * (i + 1) + 8];
      }
      TimesFromSlices(times[1..], rest);
      assert s[8 * 0..8 * 0 + 8] == I64Le(times[0]);
      assert s == s[..8] + rest;
    }
  }

  /** Slot `i` of the ring, or an empty slot where the account is too short to hold it. */
  function Slot(data: seq<byte>, i: nat): i64 {
    if 127 + 8 * i + 8 <= |data| then I64Value(data[127 + 8 * i..127 + 8 * i + 8]) else 0
  }

  function RingIn(data: seq<byte>): Ring {
    seq(SLOTS, i requires 0 <= i => Slot(data, i))
  }

  // --- The account ---

  function Head(tag: seq<byte>, id: Identity): (s: seq<byte>)
    requires |tag| == 8
    ensures |s| == 127
  {
    tag + id.owner + I64Le(id.created) + I64Le(id.lastVerified) + LeBytes(id.count, 4)
    + LeBytes(id.score, 2) + id.commitment + id.mint + [id.bump]
  }

  function Tail(id: Identity): (s: seq<byte>)
    ensures |s| == 50
  {
    I64Le(id.lastReset) + id.newWallet + LeBytes(id.version, 2) + I64Le(id.lastRebaseline)
  }

  function Serialize(tag: seq<byte>, id: Identity): (s: seq<byte>)
    requires |tag| == 8
    ensures |s| == LEN
  {
    Head(tag, id) + TimesBytes(id.ring) + Tail(id)
  }

  function U32Value(s: seq<byte>): u32
    requires |s| == 4
  {
    LeBound(s);
    LeValue(s)
  }

  /** The record an account of any layout stands for: fields past its end are unset. */
  function View(data: seq<byte>): Identity
    requires |data| >= 127
  {
    Identity(
      data[8..40], I64Value(data[40..48]), I64Value(data[48..56]), U32Value(data[56..60]),
      U16Value(data[60..62]), data[62..94], data[94..126], data[126], RingIn(data),
      if |data| >= 551 then I64Value(data[543..551]) else 0,
      if |data| >= 583 then data[551..583] else ZERO_KEY,
      if |data| >= 593 then U16Value(data[583..585]) else 0,
      if |data| >= 593 then I64Value(data[585..593]) else 0)
  }

  lemma HeadSlices(tag: seq<byte>, id: Identity)
    requires |tag| == 8
    ensures var d := Head(tag, id);
            && d[..8] == tag && d[8..40] == id.owner && d[40..48] == I64Le(id.created)
            && d[48..56] == I64Le(id.lastVerified) && d[56..60] == LeBytes(id.count, 4)
            && d[60..62] == LeBytes(id.score, 2) && d[62..94] == id.commitment
            && d[94..126] == id.mint && d[126] == id.bump
  {
    var front := tag + id.owner + I64Le(id.created) + I64Le(id.lastVerified);
    assert front[..8] == tag && front[8..40] == id.owner && front[40..48] == I64Le(id.created);
    assert front[48..56] == I64Le(id.lastVerified);
    assert Head(tag, id)[..56] == front;
  }

  lemma TailSlices(id: Identity)
    ensures var d := Tail(id);
            && d[..8] == I64Le(id.lastReset) && d[8..40] == id.newWallet
            && d[40..42] == LeBytes(id.version, 2) && d[42..50] == I64Le(id.lastRebaseline)
  {
  }

  lemma SerializeSlices(tag: seq<byte>, id: Identity, lo: nat, hi: nat)
    requires |tag| == 8 && lo <= hi <= LEN
    ensures hi <= 127 ==> Serialize(tag, id)[lo..hi] == Head(tag, id)[lo..hi]
    ensures 127 <= lo && hi <= 543 ==> Serialize(tag, id)[lo..hi] == TimesBytes(id.ring)[lo - 127..hi - 127]
    ensures 543 <= lo ==> Serialize(tag, id)[lo..hi] == Tail(id)[lo - 543..hi - 543]
  {
    if hi <= 543 {
      SliceOfAppend(Head(tag, id), TimesBytes(id.ring), lo, hi);
    }
    SliceOfAppend(Head(tag, id) + TimesBytes(id.ring), Tail(id), lo, hi);
  }

  /** The bytes the verifier program reads at its own fixed offsets are the record's fields. */
  lemma RawReads(tag: seq<byte>, id: Identity)
    requires |tag| == 8
    ensures var d := Serialize(tag, id);
            && |d| == 593 && d[..8] == tag && d[8..40] == id.owner && d[62..94] == id.commitment
            && d[94..126] == id.mint && d[126] == id.bump && U16Value(d[583..585]) == id.version
  {
    HeadSlices(tag, id);
    TailSlices(id);
    SerializeSlices(tag, id, 0, 8);
    SerializeSlices(tag, id, 8, 40);
    SerializeSlices(tag, id, 62, 94);
    SerializeSlices(tag, id, 94, 126);
    SerializeSlices(tag, id, 583, 585);
    U16RoundTrip(id.version);
  }

  /** Every field of the account, at its offset. */
  lemma FieldOffsets(tag: seq<byte>, id: Identity, slot: nat)
    requires |tag| == 8 && slot < 52
    ensures var d := Serialize(tag, id);
            && |d| == 593 && d[..8] == tag && d[8..40] == id.owner && I64Value(d[40..48]) == id.created
            && I64Value(d[48..56]) == id.lastVerified && LeValue(d[56..60]) == id.count
            && LeValue(d[60..62]) == id.score
            && d[62..94] == id.commitment && d[94..126] == id.mint && d[126] == id.bump
            && I64Value(d[127 + 8 * slot..135 + 8 * slot]) == id.ring[slot]
            && I64Value(d[543..551]) == id.lastReset && d[551..583] == id.newWallet
            && LeValue(d[583..585]) == id.version && I64Value(d[585..593]) == id.lastRebaseline
  {
    RawReads(tag, id);
    ViewSerialize(tag, id);
    assert RingIn(Serialize(tag, id))[slot] == Slot(Serialize(tag, id), slot);
  }

  lemma RingSerialized(tag: seq<byte>, id: Identity)
    requires |tag| == 8
    ensures RingIn(Serialize(tag, id)) == id.ring
  {
    var d := Serialize(tag, id);
    forall i | 0 <= i < SLOTS ensures Slot(d, i) == id.ring[i] {
      SerializeSlices(tag, id, 127 + 8 * i, 127 + 8 * i + 8);
      TimesSlice(id.ring, i);
      I64RoundTrip(id.ring[i]);
    }
  }

  /** Serialising a record and reading it back gives the record. */
  lemma ViewSerialize(tag: seq<byte>, id: Identity)
    requires |tag| == 8
    ensures View(Serialize(tag, id)) == id
  {
    RawReads(tag, id);
    RingSerialized(tag, id);
    HeadSlices(tag, id);
    TailSlices(id);
    SerializeSlices(tag, id, 40, 48);
    SerializeSlices(tag, id, 48, 56);
    SerializeSlices(tag, id, 56, 60);
    SerializeSlices(tag, id, 60, 62);
    SerializeSlices(tag, id, 543, 551);
    SerializeSlices(tag, id, 551, 583);
    SerializeSlices(tag, id, 585, 593);
    I64RoundTrip(id.created);
    I64RoundTrip(id.lastVerified);
    I64RoundTrip(id.lastReset);
    I64RoundTrip(id.lastRebaseline);
    U16RoundTrip(id.score);
    Pow256Small();
    LeRoundTrip(id.count, 4);
  }

  // --- Growth ---

  /** The 10-slot layout, and the 52-slot ones that end after the ring, the reset time, the new
      wallet, and now. */
  predicate KnownLength(data: seq<byte>) {
    |data| in {207, 543, 551, 583, 593}
  }

  lemma RingSurvivesGrowth(data: seq<byte>)
    requires KnownLength(data)
    ensures RingIn(Pad(data, LEN)) == RingIn(data)
  {
    ZeroFields();
    forall i | 0 <= i < SLOTS ensures Slot(Pad(data, LEN), i) == Slot(data, i) {
      PadSlices(data, LEN, 127 + 8 * i, 127 + 8 * i + 8);
    }
  }

  lemma LateFieldsSurviveGrowth(data: seq<byte>)
    requires KnownLength(data)
    ensures var p := Pad(data, LEN);
            && (|data| >= 551 ==> p[543..551] == data[543..551])
            && (|data| < 551 ==> I64Value(p[543..551]) == 0)
            && (|data| >= 583 ==> p[551..583] == data[551..583])
            && (|data| < 583 ==> p[551..583] == ZERO_KEY)
            && (|data| < 593 ==> U16Value(p[583..585]) == 0 && I64Value(p[585..593]) == 0)
  {
    ZeroFields();
    PadSlices(data, LEN, 543, 551);
    PadSlices(data, LEN, 551, 583);
    PadSlices(data, LEN, 583, 585);
    PadSlices(data, LEN, 585, 593);
  }

  lemma EarlyFieldsSurviveGrowth(data: seq<byte>)
    requires KnownLength(data)
    ensures var p := Pad(data, LEN);
            && p[8..40] == data[8..40] && p[40..48] == data[40..48] && p[48..56] == data[48..56]
            && p[56..60] == data[56..60] && p[60..62] == data[60..62] && p[62..94] == data[62..94]
            && p[94..126] == data[94..126] && p[126] == data[126]
  {
    PadSlices(data, LEN, 8, 40);
    PadSlices(data, LEN, 40, 48);
    PadSlices(data, LEN, 48, 56);
    PadSlices(data, LEN, 56, 60);
    PadSlices(data, LEN, 60, 62);
    PadSlices(data, LEN, 62, 94);
    PadSlices(data, LEN, 94, 126);
  }

  /** Growth commutes with deserialisation: the grown account stands for the same record. Growing
      twice is growing once. */
  lemma GrowthKeepsRecord(data: seq<byte>)
    requires KnownLength(data)
    ensures View(Pad(data, LEN)) == View(data)
    ensures Pad(Pad(data, LEN), LEN) == Pad(data, LEN)
  {
    RingSurvivesGrowth(data);
    EarlyFieldsSurviveGrowth(data);
    LateFieldsSurviveGrowth(data);
    if |data| == LEN {
      assert Pad(data, LEN) == data;
    }
  }

  class IdentityAccount {
    var data: seq<byte>

    constructor (tag: seq<byte>, id: Identity)
      requires |tag| == 8
      ensures data == Serialize(tag, id) && View(data) == id
    {
      data := Serialize(tag, id);
      ViewSerialize(tag, id);
    }

    /** `resize(LEN)` on the update, reset and rebaseline paths: the record read afterwards is the
        one the shorter account stood for. */
    method Grow()
      requires KnownLength(data)
      modifies this
      ensures data == Pad(old(data), LEN) && View(data) == View(old(data))
    {
      GrowthKeepsRecord(data);
      if |data| < LEN {
        data := data + Zeros(LEN - |data|);
      }
    }

    /** Only the bound build grows accounts, and only authentic ones of a 52-slot layout; anything
        else is refused and left alone. */
    method UpgradeLayout(bound: bool, tag: seq<byte>, wallet: Key, bump: byte, mint: Key) returns (r: Outcome<Error>)
      requires |tag| == 8
      modifies this
      ensures r.Pass? <==> bound && |old(data)| in {543, 551, 583, 593} && old(data)[..8] == tag
                           && View(old(data)).owner == wallet && View(old(data)).bump == bump
                           && View(old(data)).mint == mint
      ensures !bound ==> r == Fail(UnsupportedProofGeneration)
      ensures bound && r.Fail? ==> r == Fail(InvalidIdentityState)
      ensures r.Fail? ==> data == old(data)
      ensures r.Pass? ==> data == Pad(old(data), LEN) && View(data) == View(old(data))
    {
      if !bound {
        return Fail(UnsupportedProofGeneration);
      }
      if |data| !in {543, 551, 583, 593} {
        return Fail(InvalidIdentityState);
      }
      if data[..8] != tag || data[8..40] != wallet || data[126] != bump {
        return Fail(InvalidIdentityState);
      }
      if data[94..126] != mint {
        return Fail(InvalidIdentityState);
      }
      Grow();
      r := Pass;
    }
  }
}
