// Bloom filters over a given hash.

module Blooms {
  import opened Bytes
  import opened Coding

  type Word = n: nat | n < LIMIT32

  // What every filter of a database is made with.
  datatype Policy = Policy(hash: seq<Byte> -> Word, bitsPerKey: nat)

  datatype FilterChoice = NoFilter | BloomFilter(policy: Policy)

  // 0.69 probes for each bit of a key, rounded down, but not too few or too many.
  function ProbeCount(bitsPerKey: nat): (k: nat)
    ensures 1 <= k <= 30
    ensures k == 1 || 100 * k <= 69 * bitsPerKey
    ensures k == 30 || 69 * bitsPerKey < 100 * (k + 1)
  {
    var k := bitsPerKey * 69 / 100;
    if k < 1 then 1 else if k > 30 then 30 else k
  }

  // ---- Bits of a byte string

  function Bit(n: nat): Byte
    requires n < 8
  {
    match n
    case 0 => 1
    case 1 => 2
    case 2 => 4
    case 3 => 8
    case 4 => 16
    case 5 => 32
    case 6 => 64
    case 7 => 128
  }

  lemma BitIsShift(n: nat)
    requires n < 8
    ensures Bit(n) == (1 as Byte) << n
  {
  }

  predicate IsSet(a: seq<Byte>, position: nat)
    requires position < 8 * |a|
  {
    a[position / 8] & Bit(position % 8) != 0
  }

  lemma BitsApart(x: Byte, m: nat, n: nat)
    requires m < 8 && n < 8
    ensures (x | Bit(m)) & Bit(n) != 0 <==> m == n || x & Bit(n) != 0
  {
    hide Bit;
    BitsDiffer(m, n);
    OrThenAnd(x, Bit(m), Bit(n));
  }

  lemma BitsDiffer(m: nat, n: nat)
    requires m < 8 && n < 8
    ensures Bit(m) & Bit(n) != 0 <==> m == n
  {
  }

  lemma OrThenAnd(x: Byte, b: Byte, c: Byte)
    ensures (x | b) & c != 0 <==> b & c != 0 || x & c != 0
  {
  }

  lemma SettingOneBit(a: seq<Byte>, position: nat, other: nat)
    requires position < 8 * |a| && other < 8 * |a|
    ensures IsSet(a[position / 8 := a[position / 8] | Bit(position % 8)], other) <==> other == position || IsSet(a, other)
  {
    hide Bit;
    if position / 8 == other / 8 {
      BitsApart(a[position / 8], position % 8, other % 8);
    }
  }

  // ---- Probes

  // The hash turned right by 17 bits.
  function Delta(h: Word): Word {
    h / 0x2_0000 + h % 0x2_0000 * 0x8000
  }

  function WordOf(x: bv32): (h: Word) {
    x as nat
  }

  // On machine words it is (x >> 17) | (x << 15).
  lemma DeltaIsRotation(x: bv32)
    ensures Delta(WordOf(x)) == WordOf((x >> 17) | (x << 15))
  {
    hide WordOf, Delta;
    Turned(x);
    UpperAndLower(x);
    LowerIsSmall(x);
    DeltaOfParts(WordOf(x), WordOf(x >> 17), WordOf(x & 0x1_FFFF));
  }

  lemma DeltaOfParts(h: Word, upper: nat, lower: nat)
    requires h == upper * 0x2_0000 + lower && lower < 0x2_0000
    ensures Delta(h) == upper + lower * 0x8000
  {
  }

  lemma UpperAndLower(x: bv32)
    ensures WordOf(x) == WordOf(x & 0x1_FFFF) + WordOf(x >> 17) * 0x2_0000
  {
    hide WordOf;
    PartsOf(x, x & 0x1_FFFF, x >> 17);
  }

  lemma PartsOf(x: bv32, lower: bv32, upper: bv32)
    requires lower == x & 0x1_FFFF && upper == x >> 17
    ensures WordOf(x) == WordOf(lower) + WordOf(upper) * 0x2_0000
  {
    hide WordOf;
    var y := TurnsCancel(x);
    PartsOfTurned(x, y, lower, upper);
  }

  lemma PartsOfTurned(x: bv32, y: bv32, lower: bv32, upper: bv32)
    requires x == (y >> 15) | (y << 17) && lower == y >> 15 && upper == y & 0x7FFF
    ensures WordOf(x) == WordOf(lower) + WordOf(upper) * 0x2_0000
  {
    hide WordOf;
    TurnedBack(y);
  }

  lemma Turned(x: bv32)
    ensures WordOf((x >> 17) | (x << 15)) == WordOf(x >> 17) + WordOf(x & 0x1_FFFF) * 0x8000
  {
  }

  lemma TurnedBack(x: bv32)
    ensures WordOf((x >> 15) | (x << 17)) == WordOf(x >> 15) + WordOf(x & 0x7FFF) * 0x2_0000
  {
  }

  lemma TurnsCancel(x: bv32) returns (y: bv32)
    ensures x == (y >> 15) | (y << 17) && x & 0x1_FFFF == y >> 15 && x >> 17 == y & 0x7FFF
  {
    y := (x >> 17) | (x << 15);
  }

  lemma LowerIsSmall(x: bv32)
    ensures WordOf(x & 0x1_FFFF) < 0x2_0000
  {
    assert x & 0x1_FFFF < 0x2_0000;
    var low := (x & 0x1_FFFF) as bv17;
    assert low as nat == (x & 0x1_FFFF) as nat;
  }

  // The first `n` bits a key stands for.
  function Probes(h: Word, delta: Word, bits: nat, n: nat): set<nat>
    requires bits > 0
    decreases n
  {
    if n == 0 then {} else {h % bits} + Probes((h + delta) % LIMIT32, delta, bits, n - 1)
  }

  lemma {:induction false} ProbesInRange(h: Word, delta: Word, bits: nat, n: nat)
    requires bits > 0
    ensures forall p | p in Probes(h, delta, bits, n) :: p < bits
    decreases n
  {
    if n > 0 {
      ProbesInRange((h + delta) % LIMIT32, delta, bits, n - 1);
    }
  }

  function ProbeAt(h: Word, delta: Word, bits: nat, j: nat): nat
    requires bits > 0
  {
    (h + j * delta) % LIMIT32 % bits
  }

  // Bit by bit: probe `j` is the hash with the turned hash added `j` times.
  lemma ProbesAre(h: Word, delta: Word, bits: nat, n: nat)
    requires bits > 0
    ensures Probes(h, delta, bits, n) == set j | 0 <= j < n :: (h + j * delta) % LIMIT32 % bits
  {
    hide Probes;
    ProbesStand(h, delta, bits, n);
    var all, spelled := (set j | 0 <= j < n :: ProbeAt(h, delta, bits, j)), set j | 0 <= j < n :: (h + j * delta) % LIMIT32 % bits;
    forall p | p in all
      ensures p in spelled
    {
      var j :| 0 <= j < n && p == ProbeAt(h, delta, bits, j);
      assert p == (h + j * delta) % LIMIT32 % bits;
    }
    forall p | p in spelled
      ensures p in all
    {
      var j :| 0 <= j < n && p == (h + j * delta) % LIMIT32 % bits;
      assert p == ProbeAt(h, delta, bits, j);
    }
  }

  lemma {:induction false} ProbesStand(h: Word, delta: Word, bits: nat, n: nat)
    requires bits > 0
    ensures Probes(h, delta, bits, n) == set j | 0 <= j < n :: ProbeAt(h, delta, bits, j)
    decreases n
  {
    hide ProbeAt;
    var all := set j | 0 <= j < n :: ProbeAt(h, delta, bits, j);
    if n > 0 {
      var next := (h + delta) % LIMIT32;
      ProbesStand(next, delta, bits, n - 1);
      var later := set j | 0 <= j < n - 1 :: ProbeAt(next, delta, bits, j);
      FirstProbe(h, delta, bits);
      forall j: nat | j < n - 1
        ensures ProbeAt(next, delta, bits, j) == ProbeAt(h, delta, bits, j + 1) && ProbeAt(next, delta, bits, j) in all
      {
        ProbeLater(h, delta, bits, j);
      }
      forall p | p in all
        ensures p == h % bits || p in later
      {
        var j :| 0 <= j < n && p == ProbeAt(h, delta, bits, j);
        assert j > 0 ==> p == ProbeAt(next, delta, bits, j - 1);
      }
    }
  }

  lemma FirstProbe(h: Word, delta: Word, bits: nat)
    requires bits > 0
    ensures ProbeAt(h, delta, bits, 0) == h % bits
  {
  }

  lemma ProbeLater(h: Word, delta: Word, bits: nat, j: nat)
    requires bits > 0
    ensures ProbeAt((h + delta) % LIMIT32, delta, bits, j) == ProbeAt(h, delta, bits, j + 1)
  {
    assert (j + 1) * delta == delta + j * delta;
    SumOfRest(h + delta, j * delta);
  }

  lemma SumOfRest(a: nat, b: nat)
    ensures (a % LIMIT32 + b) % LIMIT32 == (a + b) % LIMIT32
  {
  }

  function KeyProbes(policy: Policy, key: seq<Byte>, bits: nat, n: nat): set<nat>
    requires bits > 0
  {
    Probes(policy.hash(key), Delta(policy.hash(key)), bits, n)
  }

  ghost function AllProbes(policy: Policy, keys: seq<seq<Byte>>, bits: nat, n: nat): set<nat>
    requires bits > 0
  {
    if keys == [] then {} else AllProbes(policy, keys[..|keys|-1], bits, n) + KeyProbes(policy, keys[|keys|-1], bits, n)
  }

  lemma {:induction false} AllProbesAre(policy: Policy, keys: seq<seq<Byte>>, bits: nat, n: nat, p: nat)
    requires bits > 0
    ensures p in AllProbes(policy, keys, bits, n) <==> exists key :: key in keys && p in KeyProbes(policy, key, bits, n)
  {
    if keys != [] {
      var init, last := keys[..|keys|-1], keys[|keys|-1];
      AllProbesAre(policy, init, bits, n, p);
      assert forall key :: key in keys <==> key in init || key == last;
    }
  }

  // Exactly these bits are set.
  ghost predicate HasBits(a: seq<Byte>, bits: set<nat>) {
    && (forall p | p in bits :: p < 8 * |a|)
    && (forall p: nat | p < 8 * |a| :: IsSet(a, p) <==> p in bits)
  }

  lemma SettingAddsBit(a: seq<Byte>, bits: set<nat>, p: nat)
    requires HasBits(a, bits) && p < 8 * |a|
    ensures HasBits(a[p / 8 := a[p / 8] | Bit(p % 8)], bits + {p})
  {
    hide IsSet, Bit;
    forall other: nat | other < 8 * |a|
      ensures IsSet(a[p / 8 := a[p / 8] | Bit(p % 8)], other) <==> other in bits + {p}
    {
      SettingOneBit(a, p, other);
    }
  }

  lemma NoBits(n: nat)
    ensures HasBits(seq(n, _ => 0), {})
  {
    var zeros: seq<Byte> := seq(n, _ => 0);
    forall p: nat | p < 8 * |zeros|
      ensures !IsSet(zeros, p)
    {
      assert 0 & Bit(p % 8) == 0;
    }
  }

  // ---- The filter

  ghost predicate AllSet(filter: seq<Byte>, bits: set<nat>) {
    forall p | p in bits :: p < 8 * |filter| && IsSet(filter, p)
  }

  // What the bits of a filter say of a key.
  ghost predicate Matches(policy: Policy, key: seq<Byte>, filter: seq<Byte>) {
    && |filter| >= 2
    && var k := NumberOf(filter[|filter|-1]);
       k > 30 || AllSet(filter, KeyProbes(policy, key, 8 * (|filter| - 1), k))
  }

  // Bit by bit, as the program tests it.
  lemma MatchesBits(policy: Policy, key: seq<Byte>, filter: seq<Byte>)
    requires |filter| >= 2
    ensures var bits, k, h := 8 * (|filter| - 1), NumberOf(filter[|filter|-1]), policy.hash(key);
            Matches(policy, key, filter) <==>
              || k > 30
              || forall p | p in (set j | 0 <= j < k :: (h + j * Delta(h)) % LIMIT32 % bits) ::
                   filter[p / 8] & ((1 as Byte) << (p % 8)) != 0
  {
    hide Delta, NumberOf, IsSet, Probes;
    var bits, k, h := 8 * (|filter| - 1), NumberOf(filter[|filter|-1]), policy.hash(key);
    ProbesAre(h, Delta(h), bits, k);
    ProbesInRange(h, Delta(h), bits, k);
    AllSetIs(filter, Probes(h, Delta(h), bits, k));
  }

  lemma AllSetIs(filter: seq<Byte>, ps: set<nat>)
    requires forall p | p in ps :: p < 8 * |filter|
    ensures AllSet(filter, ps) <==> forall p | p in ps :: filter[p / 8] & ((1 as Byte) << (p % 8)) != 0
  {
    hide Bit;
    forall p | p in ps
      ensures IsSet(filter, p) <==> filter[p / 8] & ((1 as Byte) << (p % 8)) != 0
    {
      BitIsShift(p % 8);
    }
  }

  // A filter of these keys: the bits they stand for and no others, and how many there are for a key.
  ghost predicate IsFilterOf(policy: Policy, filter: seq<Byte>, keys: seq<seq<Byte>>) {
    && |filter| >= 9 && filter[|filter|-1] == ByteOf(ProbeCount(policy.bitsPerKey))
    && |keys| * policy.bitsPerKey <= 8 * (|filter| - 1)
    && (|filter| == 9 || 8 * (|filter| - 2) < |keys| * policy.bitsPerKey)
    && HasBits(filter[..|filter|-1], AllProbes(policy, keys, 8 * (|filter| - 1), ProbeCount(policy.bitsPerKey)))
  }

  // A filter never denies a key it was made of.
  lemma NothingIsHidden(policy: Policy, filter: seq<Byte>, keys: seq<seq<Byte>>, key: seq<Byte>)
    requires IsFilterOf(policy, filter, keys) && key in keys
    ensures Matches(policy, key, filter)
  {
    hide IsSet, ProbeCount, KeyProbes, ByteOf, NumberOf;
    var bits, k := 8 * (|filter| - 1), ProbeCount(policy.bitsPerKey);
    ByteRoundTrip(k);
    forall p | p in KeyProbes(policy, key, bits, k)
      ensures p < 8 * |filter| && IsSet(filter, p)
    {
      AllProbesAre(policy, keys, bits, k, p);
      assert IsSet(filter[..|filter|-1], p);
      SameBit(filter, |filter| - 1, p);
    }
  }

  lemma SameBit(filter: seq<Byte>, n: nat, p: nat)
    requires n <= |filter| && p < 8 * n
    ensures IsSet(filter[..n], p) == IsSet(filter, p)
  {
  }

  // A filter denies exactly the keys that stand for a bit that no key it was made of stands for.
  lemma MatchesExactly(policy: Policy, filter: seq<Byte>, keys: seq<seq<Byte>>, key: seq<Byte>)
    requires IsFilterOf(policy, filter, keys)
    ensures var bits, k := 8 * (|filter| - 1), ProbeCount(policy.bitsPerKey);
            Matches(policy, key, filter) <==> KeyProbes(policy, key, bits, k) <= AllProbes(policy, keys, bits, k)
  {
    hide IsSet, ProbeCount, KeyProbes, AllProbes, ByteOf, NumberOf;
    var bits, k := 8 * (|filter| - 1), ProbeCount(policy.bitsPerKey);
    ByteRoundTrip(k);
    forall p | p in KeyProbes(policy, key, bits, k)
      ensures p < 8 * |filter| && (IsSet(filter, p) <==> p in AllProbes(policy, keys, bits, k))
    {
      ProbeInRange(policy, key, bits, k, p);
      SameBit(filter, |filter| - 1, p);
    }
  }

  lemma ProbeInRange(policy: Policy, key: seq<Byte>, bits: nat, n: nat, p: nat)
    requires bits > 0 && p in KeyProbes(policy, key, bits, n)
    ensures p < bits
  {
    ProbesInRange(policy.hash(key), Delta(policy.hash(key)), bits, n);
  }

  method CreateFilter(policy: Policy, keys: seq<seq<Byte>>, dst: seq<Byte>) returns (r: seq<Byte>)
    ensures |dst| <= |r| && r[..|dst|] == dst && IsFilterOf(policy, r[|dst|..], keys)
  {
    hide HasBits, IsSet, Bit, ProbeCount, KeyProbes, Probes, Delta, ByteOf;
    var k := ProbeCount(policy.bitsPerKey);
    var bits := |keys| * policy.bitsPerKey;
    if bits < 64 {
      bits := 64;
    }
    var bytes := (bits + 7) / 8;
    bits := bytes * 8;
    var a: seq<Byte> := seq(bytes, _ => 0);
    NoBits(bytes);
    ghost var done: set<nat> := AllProbes(policy, keys[..0], bits, k);
    assert done == {};
    for i := 0 to |keys|
      invariant |a| == bytes && done == AllProbes(policy, keys[..i], bits, k) && HasBits(a, done)
    {
      a := AddProbes(policy, keys[i], k, a, done);
      assert keys[..i+1][..i] == keys[..i];
      done := done + KeyProbes(policy, keys[i], bits, k);
    }
    assert keys[..|keys|] == keys;
    var filter := a + [ByteOf(k)];
    assert filter[..|filter|-1] == a;
    r := dst + filter;
    assert r[|dst|..] == filter;
  }

  method AddProbes(policy: Policy, key: seq<Byte>, k: nat, a: seq<Byte>, ghost done: set<nat>) returns (r: seq<Byte>)
    requires |a| > 0 && HasBits(a, done)
    ensures |r| == |a| && HasBits(r, done + KeyProbes(policy, key, 8 * |a|, k))
  {
    hide HasBits, IsSet, Bit, Delta;
    var bits := 8 * |a|;
    var h: Word := policy.hash(key);
    var delta := Delta(h);
    ghost var all := done + KeyProbes(policy, key, bits, k);
    ghost var marked: set<nat> := done;
    r := a;
    for j := 0 to k
      invariant |r| == |a| && HasBits(r, marked) && all == marked + Probes(h, delta, bits, k - j)
    {
      var position := h % bits;
      SettingAddsBit(r, marked, position);
      r := r[position / 8 := r[position / 8] | Bit(position % 8)];
      marked := marked + {position};
      h := (h + delta) % LIMIT32;
    }
    assert all == marked;
  }

  method KeyMayMatch(policy: Policy, key: seq<Byte>, filter: seq<Byte>) returns (r: bool)
    ensures r <==> Matches(policy, key, filter)
  {
    hide IsSet, Bit, Delta, NumberOf;
    if |filter| < 2 {
      return false;
    }
    var bits := (|filter| - 1) * 8;
    var k := NumberOf(filter[|filter|-1]);
    if k > 30 {
      return true;
    }
    var h: Word := policy.hash(key);
    var delta := Delta(h);
    ghost var seen: set<nat> := {};
    ghost var all := KeyProbes(policy, key, bits, k);
    for j := 0 to k
      invariant all == seen + Probes(h, delta, bits, k - j)
      invariant forall p | p in seen :: p < 8 * |filter| && IsSet(filter, p)
    {
      var position := h % bits;
      if !IsSet(filter, position) {
        assert position in all;
        return false;
      }
      seen := seen + {position};
      h := (h + delta) % LIMIT32;
    }
    assert all == seen;
    return true;
  }
}
