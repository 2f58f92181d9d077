/** Byte strings, fixed-width integers and the small result types every program shares. */
module Bytes {

  datatype Option<+T> = None | Some(value: T)

  /** The outcome of an instruction: a value, or the error code the program returns. */
  datatype Result<+T, +E> = Ok(value: T) | Err(error: E) {
    predicate IsFailure() { Err? }
    function PropagateFailure<U>(): Result<U, E> requires Err? { Err(error) }
    function Extract(): T requires Ok? { value }
  }

  /** A guard: either the check passed, or the error code to return. */
  datatype Outcome<+E> = Pass | Fail(error: E) {
    predicate IsFailure() { Fail? }
    function PropagateFailure<U>(): Result<U, E> requires Fail? { Err(error) }
  }

  function Need<E>(condition: bool, error: E): Outcome<E> {
    if condition then Pass else Fail(error)
  }

  type byte = b: int | 0 <= b < 256

  /** A 32-byte value: a wallet, a program address, a nonce, a commitment or a digest. */
  type Key = k: seq<byte> | |k| == 32 witness Zeros(32)

  const U16_MAX := 0xFFFF
  const U32_MAX := 0xFFFF_FFFF
  const U64_MAX := 0xFFFF_FFFF_FFFF_FFFF
  const I64_MAX := 0x7FFF_FFFF_FFFF_FFFF
  const I64_MIN := -0x8000_0000_0000_0000

  type u8 = n: int | 0 <= n < 256
  type u16 = n: int | 0 <= n <= U16_MAX
  type u32 = n: int | 0 <= n <= U32_MAX
  type u64 = n: int | 0 <= n <= U64_MAX
  type i64 = n: int | I64_MIN <= n <= I64_MAX

  function Zeros(n: nat): (s: seq<byte>)
    ensures |s| == n && forall i :: 0 <= i < n ==> s[i] == 0
  {
    seq(n, _ => 0)
  }

  const ZERO_KEY: Key := Zeros(32)

  /** `i64::saturating_sub`: an out-of-range difference sticks to the nearer end of the range,
      so a later time subtracted from an earlier one is negative, not zero. */
  function SatSub(a: i64, b: i64): i64 {
    if a - b > I64_MAX then I64_MAX else if a - b < I64_MIN then I64_MIN else a - b
  }

  /** Rust's signed division rounds towards zero. */
  function TruncDiv(a: int, b: int): int
    requires b > 0
  {
    if a >= 0 then a / b else -((-a) / b)
  }

  // --- Unsigned integers as bytes ---

  function Pow256(n: nat): (p: nat)
    ensures p > 0
  {
    if n == 0 then 1 else 256 * Pow256(n - 1)
  }

  function LeBytes(v: nat, n: nat): (s: seq<byte>)
    ensures |s| == n
  {
    if n == 0 then [] else [v % 256] + LeBytes(v / 256, n - 1)
  }

  function LeValue(s: seq<byte>): nat {
    if s == [] then 0 else s[0] + 256 * LeValue(s[1..])
  }

  function BeBytes(v: nat, n: nat): (s: seq<byte>)
    ensures |s| == n
  {
    if n == 0 then [] else BeBytes(v / 256, n - 1) + [v % 256]
  }

  function BeValue(s: seq<byte>): nat {
    if s == [] then 0 else 256 * BeValue(s[..|s| - 1]) + s[|s| - 1]
  }

  lemma {:induction false} LeRoundTrip(v: nat, n: nat)
    requires v < Pow256(n)
    ensures LeValue(LeBytes(v, n)) == v
  {
    if n > 0 {
      LeRoundTrip(v / 256, n - 1);
      assert LeBytes(v, n)[1..] == LeBytes(v / 256, n - 1);
    }
  }

  lemma {:induction false} LeOfValue(s: seq<byte>)
    ensures LeValue(s) < Pow256(|s|)
    ensures LeBytes(LeValue(s), |s|) == s
  {
    if s != [] {
      LeOfValue(s[1..]);
      var v, rest: nat := LeValue(s), LeValue(s[1..]);
      assert v % 256 == s[0] && v / 256 == rest;
      assert s == [s[0]] + s[1..];
    }
  }

  lemma {:induction false} BeRoundTrip(v: nat, n: nat)
    requires v < Pow256(n)
    ensures BeValue(BeBytes(v, n)) == v
  {
    if n > 0 {
      BeRoundTrip(v / 256, n - 1);
      assert BeBytes(v, n)[..n - 1] == BeBytes(v / 256, n - 1);
    }
  }

  /** The leading byte carries the highest power, whatever follows it. */
  lemma {:induction false} BeCons(x: byte, s: seq<byte>)
    ensures BeValue([x] + s) == x * Pow256(|s|) + BeValue(s)
    ensures BeValue(s) < Pow256(|s|)
    decreases |s|
  {
    var t := [x] + s;
    if s == [] {
      assert t[..0] == [];
    } else {
      var front := s[..|s| - 1];
      assert t[..|t| - 1] == [x] + front;
      BeCons(x, front);
      assert Pow256(|s|) == 256 * Pow256(|front|);
      assert 256 * (x * Pow256(|front|)) == x * (256 * Pow256(|front|));
    }
  }

  /** Rust's order on equally long byte arrays: the first difference decides. */
  predicate LexLess(a: seq<byte>, b: seq<byte>)
    requires |a| == |b|
  {
    a != [] && (a[0] < b[0] || (a[0] == b[0] && LexLess(a[1..], b[1..])))
  }

  /** A larger leading digit outweighs everything below it. */
  lemma LeadingDigit(x: nat, y: nat, p: nat, u: nat, v: nat)
    requires x < y && u < p
    ensures x * p + u < y * p + v
  {
    assert (x + 1) * p <= y * p by {
      assert y * p == (x + 1) * p + (y - x - 1) * p;
    }
  }

  lemma {:induction false} LexIsNumeric(a: seq<byte>, b: seq<byte>)
    requires |a| == |b|
    ensures LexLess(a, b) <==> BeValue(a) < BeValue(b)
  {
    if a != [] {
      var x, y, p := a[0], b[0], Pow256(|a| - 1);
      var u, v := BeValue(a[1..]), BeValue(b[1..]);
      assert BeValue(a) == x * p + u && u < p by {
        BeCons(x, a[1..]);
        assert a == [x] + a[1..];
      }
      assert BeValue(b) == y * p + v && v < p by {
        BeCons(y, b[1..]);
        assert b == [y] + b[1..];
      }
      LexIsNumeric(a[1..], b[1..]);
      if x < y {
        LeadingDigit(x, y, p, u, v);
      } else if y < x {
        LeadingDigit(y, x, p, v, u);
      }
    }
  }

  // --- Signed 64-bit integers, two's complement ---

  const TWO64 := 0x1_0000_0000_0000_0000

  lemma Pow256Small()
    ensures Pow256(1) == 0x100 && Pow256(2) == 0x1_0000 && Pow256(4) == 0x1_0000_0000
    ensures Pow256(8) == TWO64
  {
    assert Pow256(3) == 0x100_0000 && Pow256(5) == 0x100_0000_0000;
    assert Pow256(6) == 0x1_0000_0000_0000 && Pow256(7) == 0x100_0000_0000_0000;
  }

  /** `u64 as i64` and back. */
  function Wrap(n: u64): i64 { if n <= I64_MAX then n else n - TWO64 }
  function Unwrap(x: i64): u64 { if x >= 0 then x else x + TWO64 }

  function I64Le(x: i64): (s: seq<byte>)
    ensures |s| == 8
  {
    LeBytes(Unwrap(x), 8)
  }

  function I64Value(s: seq<byte>): i64
    requires |s| == 8
  {
    LeBound(s);
    Wrap(LeValue(s))
  }

  lemma LeBound(s: seq<byte>)
    requires |s| in {2, 4, 8}
    ensures |s| == 2 ==> LeValue(s) <= U16_MAX
    ensures |s| == 4 ==> LeValue(s) <= U32_MAX
    ensures |s| == 8 ==> LeValue(s) <= U64_MAX
  {
    LeOfValue(s);
    Pow256Small();
  }

  lemma I64RoundTrip(x: i64)
    ensures I64Value(I64Le(x)) == x
  {
    Pow256Small();
    LeRoundTrip(Unwrap(x), 8);
  }

  lemma I64OfValue(s: seq<byte>)
    requires |s| == 8
    ensures I64Le(I64Value(s)) == s
  {
    LeBound(s);
    LeOfValue(s);
  }

  /** Eight bytes are read little-endian, in two's complement. */
  lemma I64Means(s: seq<byte>)
    requires |s| == 8
    ensures var low: int := s[0] as int + 0x100 * (s[1] as int) + 0x1_0000 * (s[2] as int) + 0x100_0000 * (s[3] as int);
            var high: int := s[4] as int + 0x100 * (s[5] as int)
                             + 0x1_0000 * (s[6] as int) + 0x100_0000 * (s[7] as int);
            I64Value(s) == low + 0x1_0000_0000 * (if high < 0x8000_0000 then high else high - 0x1_0000_0000)
  {
    var t := s[4..];
    LeWord(s[..4]);
    LeWord(t);
    LeSplit(s, 4);
    Pow256Small();
  }

  lemma LeWord(s: seq<byte>)
    requires |s| == 4
    ensures LeValue(s) == s[0] as int + 0x100 * (s[1] as int) + 0x1_0000 * (s[2] as int) + 0x100_0000 * (s[3] as int)
  {
    assert s[1..][1..] == s[2..] && s[2..][1..] == s[3..] && s[3..][1..] == [];
    assert LeValue(s[3..]) == s[3];
    assert LeValue(s[2..]) == s[2] as int + 256 * (s[3] as int);
    assert LeValue(s[1..]) == s[1] as int + 256 * LeValue(s[2..]);
  }

  lemma Regroup(p: nat, v: nat)
    ensures 256 * (p * v) == (256 * p) * v
  {
  }

  lemma {:induction false} LeSplit(s: seq<byte>, n: nat)
    requires n <= |s|
    ensures LeValue(s) == LeValue(s[..n]) + Pow256(n) * LeValue(s[n..])
  {
    if n == 0 {
      assert s[0..] == s;
    } else {
      LeSplit(s[1..], n - 1);
      assert s[1..][..n - 1] == s[..n][1..] && s[1..][n - 1..] == s[n..];
      Regroup(Pow256(n - 1), LeValue(s[n..]));
    }
  }

  function U16Value(s: seq<byte>): u16
    requires |s| == 2
  {
    LeBound(s);
    LeValue(s)
  }

  function U64Value(s: seq<byte>): u64
    requires |s| == 8
  {
    LeBound(s);
    LeValue(s)
  }

  lemma U16RoundTrip(v: u16)
    ensures U16Value(LeBytes(v, 2)) == v
  {
    Pow256Small();
    LeRoundTrip(v, 2);
  }

  lemma U64RoundTrip(v: u64)
    ensures U64Value(LeBytes(v, 8)) == v
  {
    Pow256Small();
    LeRoundTrip(v, 8);
  }

  // --- Byte ranges ---

  /** `data[at..at + src.len()].copy_from_slice(src)`. */
  function Splice(data: seq<byte>, at: nat, src: seq<byte>): (r: seq<byte>)
    requires at + |src| <= |data|
    ensures |r| == |data|
  {
    data[..at] + src + data[at + |src|..]
  }

  lemma SpliceSlices(data: seq<byte>, at: nat, src: seq<byte>, lo: nat, hi: nat)
    requires at + |src| <= |data| && lo <= hi <= |data|
    ensures lo == at && hi == at + |src| ==> Splice(data, at, src)[lo..hi] == src
    ensures hi <= at || at + |src| <= lo ==> Splice(data, at, src)[lo..hi] == data[lo..hi]
  {
    var front, rest := data[..at] + src, data[at + |src|..];
    SliceOfAppend(front, rest, lo, hi);
    if hi <= at || hi == at + |src| {
      SliceOfAppend(data[..at], src, lo, hi);
    }
    if hi <= at {
      assert data[..at][lo..hi] == data[lo..hi];
    } else if at + |src| <= lo {
      assert rest[lo - |front|..hi - |front|] == data[lo..hi];
    }
  }

  /** An account resized to `len`: the runtime zero-fills what it appends. */
  function Pad(data: seq<byte>, len: nat): (r: seq<byte>)
    requires |data| <= len
    ensures |r| == len
  {
    data + Zeros(len - |data|)
  }

  /** Slices of a resized account: the account's own bytes, or zeros. */
  lemma PadSlices(data: seq<byte>, len: nat, lo: nat, hi: nat)
    requires |data| <= len && lo <= hi <= len
    ensures hi <= |data| ==> Pad(data, len)[lo..hi] == data[lo..hi]
    ensures |data| <= lo ==> Pad(data, len)[lo..hi] == Zeros(hi - lo)
  {
    SliceOfAppend(data, Zeros(len - |data|), lo, hi);
  }

  lemma {:induction false} LeZeros(n: nat)
    ensures LeBytes(0, n) == Zeros(n)
  {
    if n > 0 {
      LeZeros(n - 1);
    }
  }

  /** Zero bytes read as zero. */
  lemma ZeroFields()
    ensures U16Value(Zeros(2)) == 0 && U64Value(Zeros(8)) == 0 && I64Value(Zeros(8)) == 0
  {
    U16RoundTrip(0);
    U64RoundTrip(0);
    I64RoundTrip(0);
    LeZeros(2);
    LeZeros(8);
  }

  /** The same write into a zeroed buffer, which the programs fill from front to back; `front` is
      what has been written before `at`. */
  method CopyInto(buffer: array<byte>, at: nat, src: seq<byte>, ghost front: seq<byte>)
    requires at == |front| && at + |src| <= buffer.Length
    requires buffer[..] == front + Zeros(buffer.Length - at)
    modifies buffer
    ensures buffer[..] == front + src + Zeros(buffer.Length - at - |src|)
  {
    forall i | 0 <= i < |src| {
      buffer[at + i] := src[i];
    }
  }

  /** A slice within one part of a concatenation. */
  lemma SliceOfAppend<T>(a: seq<T>, b: seq<T>, lo: nat, hi: nat)
    requires lo <= hi <= |a| + |b|
    ensures hi <= |a| ==> (a + b)[lo..hi] == a[lo..hi]
    ensures |a| <= lo ==> (a + b)[lo..hi] == b[lo - |a|..hi - |a|]
  {
  }

  /** Equal concatenations of equally long heads have equal heads and equal tails. */
  lemma AppendInjective<T>(a: seq<T>, x: seq<T>, b: seq<T>, y: seq<T>)
    requires |a| == |b| && a + x == b + y
    ensures a == b && x == y
  {
    assert (a + x)[..|a|] == a && (b + y)[..|b|] == b;
    assert (a + x)[|a|..] == x && (b + y)[|b|..] == y;
  }

  lemma BeBytesInjective(v: nat, w: nat, n: nat)
    requires v < Pow256(n) && w < Pow256(n) && BeBytes(v, n) == BeBytes(w, n)
    ensures v == w
  {
    BeRoundTrip(v, n);
    BeRoundTrip(w, n);
  }

  /** Equally long byte strings of one value are one string. */
  lemma {:induction false} BeValueInjective(a: seq<byte>, b: seq<byte>)
    requires |a| == |b| && BeValue(a) == BeValue(b)
    ensures a == b
  {
    if a != [] {
      var x, y: nat := BeValue(a[..|a| - 1]), BeValue(b[..|b| - 1]);
      assert 256 * x + a[|a| - 1] as int == 256 * y + b[|b| - 1] as int;
      BeValueInjective(a[..|a| - 1], b[..|b| - 1]);
      assert a == a[..|a| - 1] + [a[|a| - 1]] && b == b[..|b| - 1] + [b[|b| - 1]];
    }
  }

  lemma LeBytesInjective(v: nat, w: nat, n: nat)
    requires v < Pow256(n) && w < Pow256(n) && LeBytes(v, n) == LeBytes(w, n)
    ensures v == w
  {
    LeRoundTrip(v, n);
    LeRoundTrip(w, n);
  }

  /** Concatenation shifts the front by the width of the back. */
  lemma {:induction false} BeAppend(a: seq<byte>, b: seq<byte>)
    ensures BeValue(a + b) == BeValue(a) * Pow256(|b|) + BeValue(b)
    decreases |b|
  {
    if b == [] {
      assert a + b == a;
    } else {
      var front := b[..|b| - 1];
      BeAppend(a, front);
      assert (a + b)[..|a + b| - 1] == a + front;
      assert 256 * (BeValue(a) * Pow256(|front|)) == BeValue(a) * (256 * Pow256(|front|));
    }
  }

  lemma {:induction false} BeZeros(n: nat)
    ensures BeValue(Zeros(n)) == 0
  {
    if n > 0 {
      BeZeros(n - 1);
      assert Zeros(n)[..n - 1] == Zeros(n - 1);
    }
  }

  /** An ASCII literal as bytes. */
  function Ascii(text: string): (s: seq<byte>)
    ensures |s| == |text|
  {
    seq(|text|, i requires 0 <= i < |text| => (text[i] as int) % 256)
  }
}
