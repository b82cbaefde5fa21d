/**
 The latency histogram: values are bucketed by their power of two, with a fixed number of linear sub-buckets per
 octave, so that a value is known to a constant relative error. The unit magnitude is always zero.
 */
module Histograms {
  import opened Arith
  import opened MarketEvents

  // ----- binary digits

  // 64 less the number of leading zeros.
  function BitLen(v: nat): nat {
    if v == 0 then 0 else 1 + BitLen(v / 2)
  }

  function BitOr(x: nat, y: nat): nat
    decreases x + y
  {
    if x == 0 && y == 0 then 0
    else 2 * BitOr(x / 2, y / 2) + (if x % 2 == 1 || y % 2 == 1 then 1 else 0)
  }

  function Clz64(v: u64): int {
    64 - BitLen(v)
  }

  function Max(a: int, b: int): int {
    if a < b then b else a
  }

  lemma {:induction false} BitLenBounds(v: nat)
    ensures v < Pow2(BitLen(v)) && (v > 0 ==> BitLen(v) > 0 && Pow2(BitLen(v) - 1) <= v)
  {
    if v > 1 { BitLenBounds(v / 2); }
  }

  // The length is the exponent of the next power of two.
  lemma BitLenIs(v: nat, k: nat)
    ensures BitLen(v) <= k <==> v < Pow2(k)
  {
    BitLenBounds(v);
    if BitLen(v) < k { Pow2Less(BitLen(v), k); }
    if k < BitLen(v) - 1 { Pow2Less(k, BitLen(v) - 1); }
  }

  lemma BitLenMono(v: nat, w: nat)
    requires v <= w
    ensures BitLen(v) <= BitLen(w)
  {
    BitLenBounds(w);
    BitLenIs(v, BitLen(w));
  }

  lemma {:induction false} BitLenOfOr(x: nat, y: nat)
    ensures BitLen(BitOr(x, y)) == Max(BitLen(x), BitLen(y))
    decreases x + y
  {
    if x > 0 || y > 0 {
      BitLenOfOr(x / 2, y / 2);
      assert BitOr(x, y) / 2 == BitOr(x / 2, y / 2);
      if x / 2 == 0 && y / 2 == 0 {
        assert BitOr(x, y) == 1;
      }
    }
  }

  lemma {:induction false} BitLenOfMask(k: nat)
    ensures BitLen(Pow2(k) - 1) == k
  {
    if k > 0 {
      BitLenOfMask(k - 1);
      assert (Pow2(k) - 1) / 2 == Pow2(k - 1) - 1;
    }
  }

  // ----- the layout: m is the magnitude of half the sub-bucket count

  function Pow10(k: nat): (p: nat)
    ensures p >= 1
  {
    if k == 0 then 1 else 10 * Pow10(k - 1)
  }

  // A negative number of figures counts as none.
  function Figures(sig: int): nat {
    if sig < 0 then 0 else sig
  }

  // Sub-buckets enough to tell 2 * 10^sig values apart.
  function Magnitude(sig: nat): nat {
    var c := BitLen(2 * Pow10(sig) - 1);
    if c > 1 then c - 1 else 0
  }

  function BucketCount(m: nat, highest: nat): nat {
    Max(1, BitLen(highest) - m)
  }

  function CountsLen(m: nat, highest: nat): nat {
    (BucketCount(m, highest) + 1) * Pow2(m)
  }

  // The layout's indices fit the source's 32-bit ints.
  predicate Fits(m: nat, highest: nat) {
    m + 1 <= 31 && CountsLen(m, highest) <= 0x8000_0000
  }

  // Half the sub-buckets are the least power of two that is enough for the significant figures asked for.
  lemma HalfCount(sig: nat)
    ensures Pow10(sig) <= Pow2(Magnitude(sig)) < 2 * Pow10(sig)
  {
    BitLenBounds(2 * Pow10(sig) - 1);
    assert BitLen(1) == 1;
  }

  lemma FewFigures(sig: nat)
    requires Magnitude(sig) <= 30
    ensures 2 * Pow10(sig) <= 0x8000_0000
  {
    hide Magnitude;
    HalfCount(sig);
    if Magnitude(sig) < 30 { Pow2Less(Magnitude(sig), 30); }
    Pow2Of64();
    assert Pow2(32) == 4 * Pow2(30);
  }

  // Up to seven figures fit, whatever the highest value.
  lemma SevenFiguresFit(sig: nat, highest: u64)
    requires sig <= 7
    ensures Fits(Magnitude(sig), highest)
  {
    hide BitLen, Magnitude, Pow2;
    SevenFigures(sig);
    Pow2Of64();
    BitLenIs(highest, 64);
    FewBuckets(Magnitude(sig), BitLen(highest));
  }

  lemma SevenFigures(sig: nat)
    requires sig <= 7
    ensures Magnitude(sig) <= 24
  {
    hide BitLen, Pow2;
    Pow10Mono(sig, 7);
    SmallPowers();
    BitLenIs(2 * Pow10(sig) - 1, 25);
  }

  lemma SmallPowers()
    ensures Pow10(7) == 10000000 && Pow2(7) == 128 && Pow2(24) == 16777216 && Pow2(25) == 33554432
  {
    Pow2Of8();
    Pow2Add(8, 8);
    Pow2Add(16, 8);
    assert Pow10(3) == 1000;
  }

  // The fewer sub-buckets, the more buckets; either way the product stays small.
  lemma FewBuckets(m: nat, digits: nat)
    requires m <= 24 && digits <= 64
    ensures (Max(1, digits - m) + 1) * Pow2(m) <= 0x8000_0000
  {
    hide Pow2;
    SmallPowers();
    if m < 24 { Pow2Less(m, 24); }
    MulLe(Max(1, digits - m) + 1, 65, Pow2(m));
    MulLe(Pow2(m), 16777216, 65);
  }

  lemma {:induction false} Pow10Mono(j: nat, k: nat)
    requires j <= k
    ensures Pow10(j) <= Pow10(k)
  {
    if j < k { Pow10Mono(j, k - 1); }
  }

  // ----- where a value is counted

  function BucketIndex(m: nat, v: u64): int
    requires m + 1 < 64
  {
    BitOrFits(v, m + 1);
    64 - (m + 1) - Clz64(BitOr(v, Pow2(m + 1) - 1))
  }

  lemma BitOrFits(v: u64, k: nat)
    requires k <= 64
    ensures BitOr(v, Pow2(k) - 1) < TWO_64
    ensures BitLen(BitOr(v, Pow2(k) - 1)) == Max(BitLen(v), k) <= 64
  {
    BitLenOfOr(v, Pow2(k) - 1);
    BitLenOfMask(k);
    Pow2Of64();
    BitLenIs(v, 64);
    BitLenIs(BitOr(v, Pow2(k) - 1), 64);
  }

  function SubIndex(v: nat, bucket: nat): nat {
    DivMod(v, Pow2(bucket));
    v / Pow2(bucket)
  }

  lemma DivMod(x: nat, d: nat)
    requires d >= 1
    ensures x / d >= 0 && x == (x / d) * d + x % d && 0 <= x % d < d
  {
  }

  function CountsIndex(m: nat, bucket: int, sub: int): int {
    (bucket + 1) * Pow2(m) + (sub - Pow2(m))
  }

  function IndexFor(m: nat, v: u64): int
    requires m + 1 < 64
  {
    BucketFacts(m, v);
    CountsIndex(m, BucketIndex(m, v), SubIndex(v, BucketIndex(m, v)))
  }

  function ValueFromIndex(m: nat, index: nat): nat {
    DivMod(index, Pow2(m));
    ValueOfParts(index / Pow2(m) - 1, BitAnd(index, Pow2(m) - 1) + Pow2(m), Pow2(m))
  }

  function ValueOfParts(bucket: int, sub: nat, half: nat): nat
    requires half <= sub
  {
    if bucket < 0 then sub - half else sub * Pow2(bucket)
  }

  function Lowest(m: nat, v: u64): nat
    requires m + 1 < 64
  {
    BucketFacts(m, v);
    SubIndex(v, BucketIndex(m, v)) * Pow2(BucketIndex(m, v))
  }

  // Computed in 64 bits: for the last bucket the sum wraps to zero before the decrement.
  function Highest(m: nat, v: u64): nat
    requires m + 1 < 64
  {
    BucketFacts(m, v);
    ((Lowest(m, v) + Pow2(BucketIndex(m, v))) % TWO_64 - 1) % TWO_64
  }

  lemma BucketIs(m: nat, v: u64)
    requires m + 1 < 64
    ensures BitLen(v) <= 64 && BucketIndex(m, v) == Max(BitLen(v), m + 1) - (m + 1)
  {
    hide BitLen, BitOr, Pow2;
    BitOrFits(v, m + 1);
  }

  // Bucket b holds the values of m + 1 + b binary digits, and bucket 0 all shorter ones too.
  lemma BucketFacts(m: nat, v: u64)
    requires m + 1 < 64
    ensures var b := BucketIndex(m, v);
      && 0 <= b == Max(BitLen(v), m + 1) - (m + 1) <= 63 - m
      && v < Pow2(m + b + 1) <= TWO_64 && (b > 0 ==> Pow2(m + b) <= v)
  {
    hide BucketIndex, BitLen, Pow2;
    BucketIs(m, v);
    Pow2Of64();
    var b := BucketIndex(m, v);
    BitLenIs(v, m + b + 1);
    if m + b + 1 < 64 { Pow2Less(m + b + 1, 64); }
    if b > 0 { BitLenIs(v, m + b); }
  }

  lemma SubArith(v: nat, w: nat, half: nat, s: nat, first: bool)
    requires w >= 1 && half >= 1 && s == v / w && v < 2 * (half * w) && (!first ==> half * w <= v)
    ensures s * w <= v < s * w + w <= 2 * (half * w)
    ensures s < 2 * half && (!first ==> half <= s)
  {
    assert v == w * s + v % w;
    if s >= 2 * half { MulLe(2 * half, s, w); }
    MulLe(s + 1, 2 * half, w);
    if half > s { MulLe(s + 1, half, w); }
  }

  // The range a value shares with others: it starts at a multiple of its width, the bucket's power of two.
  lemma SubFacts(m: nat, v: u64)
    requires m + 1 < 64
    ensures var b := BucketIndex(m, v);
      b >= 0 && var w, s := Pow2(b), SubIndex(v, b);
      && s * w <= v < s * w + w <= TWO_64 && s < 2 * Pow2(m)
      && (b > 0 ==> Pow2(m) <= s) && (b == 0 ==> w == 1)
  {
    hide BucketIndex, BitLen;
    BucketFacts(m, v);
    var b := BucketIndex(m, v);
    Pow2Add(m, b);
    SubArith(v, Pow2(b), Pow2(m), SubIndex(v, b), b == 0);
  }

  lemma IndexIs(m: nat, v: u64)
    requires m + 1 < 64
    ensures var b := BucketIndex(m, v); b >= 0 && IndexFor(m, v) == b * Pow2(m) + SubIndex(v, b)
  {
    hide BucketIndex, Pow2, SubIndex;
    BucketFacts(m, v);
    Spread(BucketIndex(m, v), Pow2(m));
  }

  lemma Spread(b: int, half: int)
    ensures (b + 1) * half == b * half + half
  {
  }

  // ----- ranges of values that count as the same

  // The lowest and highest values of v's range, free of wrapping.
  lemma RangeOf(m: nat, v: u64)
    requires m + 1 < 64
    ensures var b := BucketIndex(m, v); b >= 0 && Highest(m, v) == Lowest(m, v) + Pow2(b) - 1
    ensures Lowest(m, v) <= v <= Highest(m, v) < TWO_64
  {
    hide BucketIndex, Pow2, SubIndex, IndexFor;
    SubFacts(m, v);
    NoWrap(Lowest(m, v) + Pow2(BucketIndex(m, v)));
  }

  lemma NoWrap(x: int)
    requires 0 < x <= TWO_64
    ensures (x % TWO_64 - 1) % TWO_64 == x - 1
  {
  }

  // A larger value is never counted at a smaller index.
  lemma IndexMonotone(m: nat, v: u64, w: u64)
    requires m + 1 < 64 && v <= w
    ensures IndexFor(m, v) <= IndexFor(m, w)
  {
    hide BucketIndex, Pow2, IndexFor, BitLen;
    BucketFacts(m, v);
    BucketFacts(m, w);
    BitLenMono(v, w);
    IndexIs(m, v);
    IndexIs(m, w);
    var b, b' := BucketIndex(m, v), BucketIndex(m, w);
    if b == b' {
      DivLe(v, w, Pow2(b));
    } else {
      LaterBucket(m, v, w);
    }
  }

  lemma LaterBucket(m: nat, v: u64, w: u64)
    requires m + 1 < 64 && BucketIndex(m, v) < BucketIndex(m, w)
    ensures IndexFor(m, v) < IndexFor(m, w)
  {
    hide BucketIndex, Pow2, IndexFor, SubIndex;
    SubFacts(m, v);
    SubFacts(m, w);
    IndexIs(m, v);
    IndexIs(m, w);
    IndexOrder(BucketIndex(m, v), SubIndex(v, BucketIndex(m, v)),
               BucketIndex(m, w), SubIndex(w, BucketIndex(m, w)), Pow2(m));
  }

  lemma IndexOrder(b: nat, s: nat, b': nat, s': nat, half: nat)
    requires b < b' && s < 2 * half && half <= s'
    ensures b * half + s < b' * half + s'
  {
    MulLe(b + 1, b', half);
  }

  // Every value up to the highest has a counter.
  lemma IndexInRange(m: nat, highest: u64, v: u64)
    requires m + 1 < 64 && v <= highest
    ensures 0 <= IndexFor(m, v) < CountsLen(m, highest)
  {
    hide BucketIndex, Pow2, IndexFor, SubIndex, BitLen;
    BucketFacts(m, v);
    SubFacts(m, v);
    IndexIs(m, v);
    BitLenMono(v, highest);
    IndexBelow(BucketIndex(m, v), SubIndex(v, BucketIndex(m, v)), BucketCount(m, highest), Pow2(m));
  }

  lemma IndexBelow(b: nat, s: nat, buckets: nat, half: nat)
    requires b + 1 <= buckets && s < 2 * half
    ensures 0 <= b * half + s < (buckets + 1) * half
  {
    MulLe(b, buckets - 1, half);
    MulLe(0, b, half);
    Spread(buckets - 1, half);
    Spread(buckets, half);
  }

  // There are no more buckets than the highest value needs, and no more counters than their values.
  lemma LayoutTight(m: nat, highest: u64)
    requires m + 1 < 64
    ensures var buckets := BucketCount(m, highest);
      && highest < Pow2(m + buckets) <= TWO_64 && (buckets > 1 ==> Pow2(m + buckets - 1) <= highest)
      && IndexFor(m, Pow2(m + buckets) - 1) + 1 == CountsLen(m, highest)
  {
    hide BitLen, BucketIndex, SubIndex, Pow2, IndexFor;
    var buckets := BucketCount(m, highest);
    Pow2Of64();
    BitLenIs(highest, 64);
    BitLenIs(highest, m + buckets);
    if buckets > 1 { BitLenIs(highest, m + buckets - 1); }
    if m + buckets < 64 { Pow2Less(m + buckets, 64); }
    LastIndex(m, buckets);
  }

  lemma LastIndex(m: nat, buckets: nat)
    requires m + 1 < 64 && buckets >= 1 && m + buckets <= 64 && Pow2(m + buckets) <= TWO_64
    ensures IndexFor(m, Pow2(m + buckets) - 1) + 1 == (buckets + 1) * Pow2(m)
  {
    hide BucketIndex, Pow2, IndexFor, BitLen;
    var last, w := Pow2(m + buckets) - 1, Pow2(buckets - 1);
    Pow2Add(m + 1, buckets - 1);
    Doubled(m + 1);
    BitLenOfMask(m + buckets);
    BucketIs(m, last);
    IndexIs(m, last);
    LastQuotient(last, w, 2 * Pow2(m));
    Spread(buckets - 1, Pow2(m));
    Spread(buckets, Pow2(m));
  }

  lemma LastQuotient(last: nat, w: nat, n: nat)
    requires w >= 1 && n >= 1 && last + 1 == n * w
    ensures last / w == n - 1
  {
    assert (n - 1) * w + w == n * w;
    DivUnique(last, w, n - 1);
  }

  // The value computed from an index is counted there: no counter is unreachable.
  lemma ValueAtIndex(m: nat, highest: u64, index: nat)
    requires m + 1 < 64 && index < CountsLen(m, highest)
    ensures ValueFromIndex(m, index) < TWO_64 && IndexFor(m, ValueFromIndex(m, index)) == index
  {
    hide BucketIndex, Pow2, BitLen, IndexFor, CountsLen, ValueFromIndex, SubIndex;
    var half := Pow2(m);
    DivMod(index, half);
    var q := index / half;
    ValueIs(m, index, q, index % half);
    if q == 0 {
      Pow2Of64();
      Pow2Less(m, 64);
      assert q * half == 0;
      ShortValue(m, index);
    } else {
      BucketBelow(m, highest, index);
      ValueInBucket(m, q - 1, index % half + half);
      IndexIs(m, ValueFromIndex(m, index));
      Spread(q - 1, half);
    }
  }

  lemma ValueIs(m: nat, index: nat, q: nat, low: nat)
    requires low < Pow2(m) && index == q * Pow2(m) + low
    ensures ValueFromIndex(m, index) == if q == 0 then low else (low + Pow2(m)) * Pow2(q - 1)
  {
    hide Pow2, BitAnd, ValueOfParts;
    MaskIsMod(index, m);
    ModUnique(index, Pow2(m), q, low);
    PartsAre(q, low, Pow2(m));
  }

  lemma PartsAre(q: nat, low: nat, half: nat)
    ensures ValueOfParts(q - 1, low + half, half) == if q == 0 then low else (low + half) * Pow2(q - 1)
  {
  }

  lemma ShortValue(m: nat, v: u64)
    requires m + 1 < 64 && v < Pow2(m)
    ensures BucketIndex(m, v) == 0 && IndexFor(m, v) == v
  {
    hide BucketIndex, BitLen, IndexFor;
    BucketFacts(m, v);
    BitLenIs(v, m);
    IndexIs(m, v);
    assert v / Pow2(0) == v;
  }

  lemma BucketBelow(m: nat, highest: u64, index: nat)
    requires m + 1 < 64 && index < CountsLen(m, highest)
    ensures m + index / Pow2(m) <= 64
  {
    hide BitLen, Pow2;
    var bc, q := BucketCount(m, highest), index / Pow2(m);
    assert index == Pow2(m) * q + index % Pow2(m);
    if bc + 1 <= q { MulLe(bc + 1, q, Pow2(m)); }
    Pow2Of64();
    BitLenIs(highest, 64);
  }

  lemma ValueInBucket(m: nat, b: nat, sub: nat)
    requires m + b + 1 <= 64 && m + 1 < 64 && Pow2(m) <= sub < 2 * Pow2(m)
    ensures var v := sub * Pow2(b);
      v < TWO_64 && BucketIndex(m, v) == b && SubIndex(v, b) == sub
  {
    hide BucketIndex, BitLen, Pow2;
    var v, p := sub * Pow2(b), Pow2(b);
    Pow2Add(m, b);
    Doubled(m + b + 1);
    Pow2Of64();
    Between(sub, p, Pow2(m));
    if m + b + 1 < 64 { Pow2Less(m + b + 1, 64); }
    InBucket(m, b, v);
    DivUnique(v, p, sub);
  }

  lemma Between(sub: nat, w: nat, half: nat)
    requires half <= sub < 2 * half
    ensures half * w <= sub * w <= sub * w + w <= 2 * (half * w)
  {
    MulLe(half, sub, w);
    MulLe(sub + 1, 2 * half, w);
  }

  // The bucket of a value is the octave it lies in.
  lemma InBucket(m: nat, b: nat, v: u64)
    requires m + 1 < 64 && v < Pow2(m + b + 1) && (b > 0 ==> Pow2(m + b) <= v)
    ensures BucketIndex(m, v) == b
  {
    hide BucketIndex, BitLen;
    BucketFacts(m, v);
    BitLenIs(v, m + b + 1);
    if b > 0 { BitLenIs(v, m + b); }
  }

  // Exactly the values between the lowest and the highest equivalent share a counter.
  lemma SameRange(m: nat, v: u64, w: u64)
    requires m + 1 < 64
    ensures IndexFor(m, w) == IndexFor(m, v) <==> Lowest(m, v) <= w <= Highest(m, v)
  {
    hide BucketIndex, Pow2, SubIndex, IndexFor, Highest;
    RangeOf(m, v);
    RangeOf(m, w);
    if IndexFor(m, w) == IndexFor(m, v) {
      SameBucket(m, v, w);
    } else if Lowest(m, v) <= w <= Highest(m, v) {
      EndShares(m, v, w);
    }
  }

  lemma SameBucket(m: nat, v: u64, w: u64)
    requires m + 1 < 64 && IndexFor(m, v) == IndexFor(m, w)
    ensures BucketIndex(m, v) == BucketIndex(m, w) >= 0
    ensures SubIndex(v, BucketIndex(m, v)) == SubIndex(w, BucketIndex(m, w))
  {
    hide BucketIndex, Pow2, SubIndex, IndexFor;
    BucketFacts(m, v);
    BucketFacts(m, w);
    IndexIs(m, v);
    IndexIs(m, w);
    if BucketIndex(m, v) < BucketIndex(m, w) { LaterBucket(m, v, w); }
    if BucketIndex(m, w) < BucketIndex(m, v) { LaterBucket(m, w, v); }
  }

  lemma EndShares(m: nat, v: u64, w: u64)
    requires m + 1 < 64 && BucketIndex(m, v) >= 0
    requires Lowest(m, v) <= w < Lowest(m, v) + Pow2(BucketIndex(m, v))
    ensures IndexFor(m, w) == IndexFor(m, v)
  {
    hide BucketIndex, IndexFor, BitLen, Pow2;
    SubFacts(m, v);
    IndexIs(m, v);
    IndexIs(m, w);
    DivUnique(w, Pow2(BucketIndex(m, v)), SubIndex(v, BucketIndex(m, v)));
    SameOctave(m, v, w);
  }

  lemma SameOctave(m: nat, v: u64, w: u64)
    requires m + 1 < 64 && BucketIndex(m, v) >= 0
    requires Lowest(m, v) <= w < Lowest(m, v) + Pow2(BucketIndex(m, v))
    ensures BucketIndex(m, w) == BucketIndex(m, v)
  {
    hide BucketIndex, IndexFor, BitLen, Pow2, SubIndex;
    SubFacts(m, v);
    var b := BucketIndex(m, v);
    Pow2Add(m, b);
    Doubled(m + b + 1);
    var s := SubIndex(v, b);
    if b > 0 {
      Between(s, Pow2(b), Pow2(m));
    } else {
      assert s * 1 == s && Pow2(m) * 1 == Pow2(m);
    }
    InBucket(m, b, w);
  }

  // The highest equivalent overstates a value by less than one part in half the sub-bucket count.
  lemma RelativeError(m: nat, v: u64)
    requires m + 1 < 64 && v >= 1
    ensures v <= Highest(m, v) && (Highest(m, v) - v) * Pow2(m) < v
  {
    hide BucketIndex, Pow2, SubIndex, IndexFor, Highest;
    RangeOf(m, v);
    SubFacts(m, v);
    var b := BucketIndex(m, v);
    ErrorArith(v, Highest(m, v), Pow2(b), Pow2(m), SubIndex(v, b));
  }

  lemma ErrorArith(v: nat, high: nat, w: nat, half: nat, s: nat)
    requires v >= 1 && w >= 1 && half >= 1 && s * w <= v <= high == s * w + w - 1
    requires w == 1 || half <= s
    ensures (high - v) * half < v
  {
    MulLe(high - v, w - 1, half);
    if w > 1 { MulLe(half, s, w); }
  }

  // Asking for sig figures bounds the overstatement by one part in 10^sig.
  lemma FiguresKept(sig: nat, v: u64)
    requires Magnitude(sig) + 1 < 64 && v >= 1
    ensures (Highest(Magnitude(sig), v) - v) * Pow10(sig) < v
  {
    hide Magnitude, Highest, Pow2, Pow10;
    var m := Magnitude(sig);
    RelativeError(m, v);
    HalfCount(sig);
    MulLe(Pow10(sig), Pow2(m), Highest(m, v) - v);
  }

  // ----- setting up

  method CeilLog2(v: nat) returns (k: nat)
    requires 1 <= v <= 0x8000_0000_0000_0000
    ensures k == BitLen(v - 1)
  {
    var x: u64 := 1;
    k := 0;
    Pow2Of64();
    assert Pow2(64) == 2 * Pow2(63);
    while x < v
      invariant k <= 63 && x == Pow2(k) && (k > 0 ==> Pow2(k - 1) < v)
      decreases v - x
    {
      x := x * 2;
      k := k + 1;
    }
    LogIs(v, k);
  }

  lemma LogIs(v: nat, k: nat)
    requires 1 <= v <= Pow2(k) && (k > 0 ==> Pow2(k - 1) < v)
    ensures k == BitLen(v - 1)
  {
    hide BitLen;
    BitLenIs(v - 1, k);
    if k > 0 { BitLenIs(v - 1, k - 1); }
  }

  // How many buckets it takes to reach value; the doubling stops before it would overflow.
  method BucketsNeeded(m: nat, value: u64) returns (needed: nat)
    requires m + 1 <= 31
    ensures needed == BucketCount(m, value)
  {
    hide BucketCount, BitLen, Pow2;
    Pow2Of64();
    Doubled(64);
    Pow2Less(m + 1, 64);
    var smallestUntrackable: u64 := Pow2(m + 1);
    needed := 1;
    while smallestUntrackable <= value
      invariant m + needed <= 63 && smallestUntrackable == Pow2(m + needed)
      invariant needed > 1 ==> Pow2(m + needed - 1) <= value
      decreases 64 - needed
    {
      Doubled(m + needed + 1);
      if smallestUntrackable > 0x7FFF_FFFF_FFFF_FFFF {
        if m + needed < 63 { Pow2Less(m + needed, 63); }
        NeededIs(m, needed + 1, value);
        return needed + 1;
      }
      smallestUntrackable := smallestUntrackable * 2;
      needed := needed + 1;
    }
    NeededIs(m, needed, value);
  }

  lemma NeededIs(m: nat, n: nat, value: u64)
    requires n >= 1 && value < Pow2(m + n) && (n > 1 ==> Pow2(m + n - 1) <= value)
    ensures n == BucketCount(m, value)
  {
    hide BitLen, Pow2;
    BitLenIs(value, m + n);
    if n > 1 { BitLenIs(value, m + n - 1); }
  }

  // ----- samples

  // How many samples are counted at index i, at indices up to i, and are at most v.
  function Hits(m: nat, xs: seq<u64>, i: int): nat
    requires m + 1 < 64
  {
    if xs == [] then 0
    else Hits(m, xs[..|xs| - 1], i) + if IndexFor(m, xs[|xs| - 1]) == i then 1 else 0
  }

  function HitsUpTo(m: nat, xs: seq<u64>, i: int): nat
    requires m + 1 < 64
  {
    if xs == [] then 0
    else HitsUpTo(m, xs[..|xs| - 1], i) + if IndexFor(m, xs[|xs| - 1]) <= i then 1 else 0
  }

  function AtMost(xs: seq<u64>, v: int): (n: nat)
    ensures n <= |xs|
  {
    if xs == [] then 0 else AtMost(xs[..|xs| - 1], v) + if xs[|xs| - 1] <= v then 1 else 0
  }

  // x is the t-th smallest sample.
  ghost predicate IsRank(xs: seq<u64>, t: nat, x: u64) {
    x in xs && AtMost(xs, x - 1) < t <= AtMost(xs, x)
  }

  lemma {:induction false} NextIndex(m: nat, xs: seq<u64>, i: int)
    requires m + 1 < 64
    ensures HitsUpTo(m, xs, i) == HitsUpTo(m, xs, i - 1) + Hits(m, xs, i)
  {
    hide IndexFor;
    if xs != [] { NextIndex(m, xs[..|xs| - 1], i); }
  }

  lemma {:induction false} AllCounted(m: nat, xs: seq<u64>, highest: u64)
    requires m + 1 < 64 && forall k :: 0 <= k < |xs| ==> xs[k] <= highest
    ensures HitsUpTo(m, xs, CountsLen(m, highest) - 1) == |xs| && HitsUpTo(m, xs, -1) == 0
  {
    hide IndexFor, CountsLen;
    if xs != [] {
      IndexInRange(m, highest, xs[|xs| - 1]);
      AllCounted(m, xs[..|xs| - 1], highest);
    }
  }

  // Counting by index and counting by value bracket each other.
  lemma {:induction false} CountsBracket(m: nat, xs: seq<u64>, x: u64, i: int)
    requires m + 1 < 64
    ensures IndexFor(m, x) <= i ==> AtMost(xs, x) <= HitsUpTo(m, xs, i)
    ensures i < IndexFor(m, x) ==> HitsUpTo(m, xs, i) <= AtMost(xs, x - 1)
  {
    hide IndexFor;
    if xs != [] {
      var y := xs[|xs| - 1];
      CountsBracket(m, xs[..|xs| - 1], x, i);
      if y <= x { IndexMonotone(m, y, x); } else { IndexMonotone(m, x, y); }
    }
  }

  // The first index where the running count reaches t is the index of the t-th smallest sample.
  lemma RankIndex(m: nat, xs: seq<u64>, t: nat, x: u64, i: int)
    requires m + 1 < 64 && IsRank(xs, t, x) && HitsUpTo(m, xs, i - 1) < t <= HitsUpTo(m, xs, i)
    ensures IndexFor(m, x) == i
  {
    CountsBracket(m, xs, x, i - 1);
    CountsBracket(m, xs, x, i);
  }

  // Values counted together are reported as the same value.
  lemma SameReport(m: nat, v: u64, w: u64)
    requires m + 1 < 64 && IndexFor(m, v) == IndexFor(m, w)
    ensures Lowest(m, v) == Lowest(m, w) && Highest(m, v) == Highest(m, w)
  {
    hide BucketIndex, IndexFor, SubIndex, Pow2;
    SameBucket(m, v, w);
  }

  lemma {:induction false} AtMostMonotone(xs: seq<u64>, v: int, w: int)
    requires v <= w
    ensures AtMost(xs, v) <= AtMost(xs, w)
  {
    if xs != [] { AtMostMonotone(xs[..|xs| - 1], v, w); }
  }

  lemma {:induction false} AtMostGrows(xs: seq<u64>, v: u64)
    requires AtMost(xs, v - 1) < AtMost(xs, v)
    ensures v in xs
  {
    if xs[|xs| - 1] != v { AtMostGrows(xs[..|xs| - 1], v); }
  }

  lemma {:induction false} AtMostEnds(xs: seq<u64>)
    ensures AtMost(xs, -1) == 0 && AtMost(xs, TWO_64 - 1) == |xs|
  {
    if xs != [] { AtMostEnds(xs[..|xs| - 1]); }
  }

  // Every rank has a sample (and, by RankMonotone, only one).
  lemma RankExists(xs: seq<u64>, t: nat) returns (x: u64)
    requires 1 <= t <= |xs|
    ensures IsRank(xs, t, x)
  {
    AtMostEnds(xs);
    x := RankAbove(xs, t, -1);
  }

  lemma {:induction false} RankAbove(xs: seq<u64>, t: nat, v: int) returns (x: u64)
    requires -1 <= v < TWO_64 - 1 && AtMost(xs, v) < t <= AtMost(xs, TWO_64 - 1)
    ensures IsRank(xs, t, x)
    decreases TWO_64 - v
  {
    x := v + 1;
    if AtMost(xs, x) < t {
      x := RankAbove(xs, t, x);
    } else {
      AtMostGrows(xs, x);
    }
  }

  // A higher rank never has a smaller sample, and never a smaller report.
  lemma RankMonotone(m: nat, xs: seq<u64>, t: nat, x: u64, t': nat, x': u64)
    requires m + 1 < 64 && IsRank(xs, t, x) && IsRank(xs, t', x') && t <= t'
    ensures x <= x' && Highest(m, x) <= Highest(m, x')
  {
    hide Highest, Lowest, IndexFor, AtMost;
    if x' < x { AtMostMonotone(xs, x', x - 1); }
    RangeOf(m, x);
    RangeOf(m, x');
    if Highest(m, x') < Highest(m, x) {
      IndexMonotone(m, x, x');
      IndexMonotone(m, x', Highest(m, x'));
      SameRange(m, x, x');
      SameRange(m, x', x');
      SameReport(m, x, x');
    }
  }

  // ----- the histogram

  class LatencyHistogram {
    const highest: u64
    const m: nat
    const counts: array<nat>
    var totalCount: nat
    var sum: nat
    var min: u64
    var max: u64
    ghost var samples: seq<u64>  // what was recorded, clamped

    ghost predicate Valid()
      reads this, counts
    {
      && highest >= 2 && Fits(m, highest) && counts.Length == CountsLen(m, highest)
      && (forall k :: 0 <= k < |samples| ==> 1 <= samples[k] <= highest)
      && (forall i :: 0 <= i < counts.Length ==> counts[i] == Hits(m, samples, i))
      && totalCount == |samples| && sum == Sum(samples) && Extremes(samples, min, max)
    }

    constructor (highestNs: u64, sig: int)
      requires Fits(Magnitude(Figures(sig)), if highestNs < 2 then 2 else highestNs)
      ensures Valid() && fresh(counts) && samples == []
      ensures m == Magnitude(Figures(sig)) && highest == if highestNs < 2 then 2 else highestNs
    {
      hide BitLen, Pow2;
      var h: u64 := if highestNs < 2 then 2 else highestNs;
      var largest := 2;
      for i := 0 to Figures(sig)
        invariant largest == 2 * Pow10(i)
      {
        largest := largest * 10;
      }
      FewFigures(Figures(sig));
      var magnitude := CeilLog2(largest);
      var half := if magnitude > 1 then magnitude - 1 else 0;
      var buckets := BucketsNeeded(half, h);
      highest, m := h, half;
      counts := new nat[(buckets + 1) * Pow2(half)](_ => 0);
      totalCount, sum, min, max, samples := 0, 0, TWO_64 - 1, 0, [];
    }

    method Record(valueNs: u64)
      requires Valid()
      modifies this, counts
      ensures Valid()
      ensures samples == old(samples) + [if valueNs < 1 then 1 else if valueNs > highest then highest else valueNs]
    {
      hide IndexFor, CountsLen, Hits, Sum, Extremes;
      var v: u64 := if valueNs < 1 then 1 else if valueNs > highest then highest else valueNs;
      IndexInRange(m, highest, v);
      var i := IndexFor(m, v);
      counts[i] := counts[i] + 1;
      totalCount := totalCount + 1;
      sum := sum + v;
      if v < min { min := v; }
      if v > max { max := v; }
      Recorded(m, samples, v, old(min), old(max));
      samples := samples + [v];
    }

    // The value reported for a rank, which the caller computes from a percentile. It is the highest value that
    // cannot be told from the sample of that rank.
    method ValueAtRank(rank: nat) returns (r: nat)
      requires Valid()
      ensures samples == [] ==> r == 0
      ensures var t := if rank < 1 then 1 else if rank > |samples| then |samples| else rank;
        samples != [] ==> forall x :: IsRank(samples, t, x) ==> r == Highest(m, x)
    {
      hide IndexFor, CountsLen, Hits, HitsUpTo, IsRank, ValueFromIndex, Highest, Sum, Extremes;
      if totalCount == 0 { return 0; }
      var target := if rank < 1 then 1 else if rank > totalCount then totalCount else rank;
      var running := 0;
      r := max;  // the answer if the loop were to find nothing
      AllCounted(m, samples, highest);
      for i := 0 to counts.Length
        invariant running == HitsUpTo(m, samples, i - 1) < target
      {
        running := running + counts[i];
        NextIndex(m, samples, i);
        ValueAtIndex(m, highest, i);
        if running >= target {
          forall x | IsRank(samples, target, x)
            ensures Highest(m, ValueFromIndex(m, i)) == Highest(m, x)
          {
            RankIndex(m, samples, target, x, i);
            SameReport(m, ValueFromIndex(m, i), x);
          }
          return Highest(m, ValueFromIndex(m, i));
        }
      }
      assert false;
    }

    method Reset()
      requires Valid()
      modifies this, counts
      ensures Valid() && samples == []
    {
      for i := 0 to counts.Length
        invariant forall k :: 0 <= k < i ==> counts[k] == 0
        invariant Fits(m, highest) && counts.Length == CountsLen(m, highest)
      {
        counts[i] := 0;
      }
      totalCount, sum, min, max, samples := 0, 0, TWO_64 - 1, 0, [];
    }
  }

  lemma Recorded(m: nat, xs: seq<u64>, v: u64, min: u64, max: u64)
    requires m + 1 < 64 && Extremes(xs, min, max)
    ensures forall i :: Hits(m, xs + [v], i) == Hits(m, xs, i) + if IndexFor(m, v) == i then 1 else 0
    ensures Sum(xs + [v]) == Sum(xs) + v
    ensures Extremes(xs + [v], if v < min then v else min, if v > max then v else max)
  {
    hide IndexFor;
    var ys := xs + [v];
    assert ys[..|xs|] == xs && ys[|xs|] == v;
    assert xs != [] ==> min in ys && max in ys;
  }

  function Sum(xs: seq<u64>): nat {
    if xs == [] then 0 else Sum(xs[..|xs| - 1]) + xs[|xs| - 1]
  }

  ghost predicate Extremes(xs: seq<u64>, min: u64, max: u64) {
    if xs == [] then min == TWO_64 - 1 && max == 0
    else min in xs && max in xs && forall k :: 0 <= k < |xs| ==> min <= xs[k] <= max
  }

  // What a percentile query means: the reported value is at least the sample of its rank, and too high by less
  // than one part in 10^sig.
  lemma ReportMeaning(sig: nat, xs: seq<u64>, t: nat, x: u64, r: nat)
    requires Magnitude(sig) + 1 < 64 && IsRank(xs, t, x) && x >= 1 && r == Highest(Magnitude(sig), x)
    ensures x <= r && (r - x) * Pow10(sig) < x
  {
    RelativeError(Magnitude(sig), x);
    FiguresKept(sig, x);
  }
}
