/** The boundary test that decides in advance whether expanding gaps can include
    covered addresses. */
module PerimeterBoundary {
  import opened AlignedBlocks
  import opened AddressRanges
  import opened CidrCover
  import opened SpacePacking
  import opened PerimeterSearch

  // ----- IPv4 blocks in the scannable space -----

  ghost function BlockPlaces(b: Block): set<int> {
    Span(b.from, b.Last())
  }

  /** An aligned IPv4 block of an allowed size within the scannable space. */
  ghost predicate Fits(b: Block, base: seq<Range>, maxHost: nat) {
    b.Aligned() && b.host <= maxHost && b.Last() <= LAST4 && BlockPlaces(b) <= Places(base)
  }

  /** An aligned block is the values of one network. */
  lemma BlockIsNetwork(b: Block, value: nat)
    requires b.Aligned()
    ensures b.Has(value) <==> Network(value, b.host) == Network(b.from, b.host)
  {
    NetworkIsInterval(b.from, value, b.host);
    NetworkIsQuotient(b.from, b.host);
    AlignedLast(b.from, b.host);
  }

  // ----- The narrowest block around two addresses -----

  /** The host bits of the narrowest network that holds two values. */
  function NarrowestHost(a: nat, b: nat): nat
    decreases a + b
  {
    if a == b then 0 else 1 + NarrowestHost(a / 2, b / 2)
  }

  lemma {:induction false} NarrowestHostIsLeast(a: nat, b: nat, h: nat)
    ensures Network(a, h) == Network(b, h) <==> h >= NarrowestHost(a, b)
    decreases h
  {
    if h == 0 {
    } else {
      NarrowestHostIsLeast(a / 2, b / 2, h - 1);
      if a == b {
        NarrowestHostIsLeast(a / 2, a / 2, h - 1);
      }
    }
  }

  lemma {:induction false} NarrowestOfBytes(highA: nat, lowA: nat, highB: nat, lowB: nat)
    requires lowA < 256 && lowB < 256
    ensures NarrowestHost(256 * highA + lowA, 256 * highB + lowB)
            == if highA == highB then NarrowestHost(lowA, lowB) else 8 + NarrowestHost(highA, highB)
  {
    hide NarrowestHost, Masked, Pow2;
    Pow2Values();
    if highA == highB {
      WholeBytes(highA);
      NarrowestOfLow(256 * highA, lowA, lowB, 8);
    } else {
      NarrowestOfHigh(256 * highA + lowA, 256 * highB + lowB);
    }
  }

  lemma WholeBytes(high: nat)
    ensures Masked(256 * high, 8) == 256 * high
  {
    hide Masked, Pow2;
    Pow2Values();
    NetworkIsQuotient(256 * high, 8);
  }

  lemma {:induction false} NarrowestOfLow(high: nat, a: nat, b: nat, n: nat)
    requires Masked(high, n) == high && a < Pow2(n) && b < Pow2(n)
    ensures NarrowestHost(high + a, high + b) == NarrowestHost(a, b)
  {
    hide Masked, NarrowestHost, Pow2;
    NarrowestStep(a, b);
    NarrowestStep(high + a, high + b);
    LowStep(high, a, n);
    LowStep(high, b, n);
    if n > 0 && a != b {
      NarrowestOfLow(high / 2, a / 2, b / 2, n - 1);
    }
  }

  lemma NarrowestStep(a: nat, b: nat)
    ensures NarrowestHost(a, b) == if a == b then 0 else 1 + NarrowestHost(a / 2, b / 2)
  {
  }

  lemma LowStep(high: nat, a: nat, n: nat)
    requires Masked(high, n) == high && a < Pow2(n)
    ensures n == 0 ==> a == 0
    ensures n > 0 ==> Masked(high / 2, n - 1) == high / 2 && a / 2 < Pow2(n - 1) && (high + a) / 2 == high / 2 + a / 2
  {
  }

  lemma {:induction false} NarrowestOfHigh(a: nat, b: nat)
    requires a / 256 != b / 256
    ensures NarrowestHost(a, b) == 8 + NarrowestHost(a / 256, b / 256)
  {
    var a2, b2 := a / 2 / 2, b / 2 / 2;
    var a4, b4 := a2 / 2 / 2, b2 / 2 / 2;
    var a6, b6 := a4 / 2 / 2, b4 / 2 / 2;
    assert a6 / 2 / 2 == a / 256 && b6 / 2 / 2 == b / 256;
    TwoSteps(a6, b6);
    TwoSteps(a4, b4);
    TwoSteps(a2, b2);
    TwoSteps(a, b);
  }

  lemma {:induction false} TwoSteps(a: nat, b: nat)
    requires a / 2 / 2 != b / 2 / 2
    ensures a != b && NarrowestHost(a, b) == 2 + NarrowestHost(a / 2 / 2, b / 2 / 2)
  {
  }

  /** The bits in which two bytes differ. */
  function Difference(a: bv8, b: bv8): bv8 {
    a ^ b
  }

  /** The leading zeros of a byte, as the math/bits package counts them. */
  function LeadingZeros8(b: bv8): int {
    8 - BitLength(ByteNumber(b))
  }

  /** The highest bit in which two bytes differ. */
  lemma {:induction false} DifferenceOfBytes(a: bv8, b: bv8)
    ensures BitLength(ByteNumber(Difference(a, b))) == NarrowestHost(ByteNumber(a), ByteNumber(b))
    decreases ByteNumber(a) + ByteNumber(b)
  {
    hide ByteNumber, Half, Difference;
    DifferentBytes(a, b);
    if a != b {
      HalfDifference(a, b);
      DifferenceOfBytes(Half(a), Half(b));
    }
  }

  lemma DifferentBytes(a: bv8, b: bv8)
    ensures ByteNumber(Difference(a, b)) == 0 <==> a == b
    ensures Difference(a, b) == 0 <==> a == b
    ensures ByteNumber(a) == ByteNumber(b) <==> a == b
  {
    hide ByteNumber, Difference;
    SameBytes(a, b);
    ByteIsNumber(a);
    ByteIsNumber(b);
    ByteIsNumber(Difference(a, b));
    ByteIsNumber(0);
    NoNumber();
  }

  lemma NoNumber()
    ensures ByteNumber(0) == 0
  {
  }

  lemma SameBytes(a: bv8, b: bv8)
    ensures Difference(a, b) == 0 <==> a == b
  {
  }

  lemma ByteIsNumber(a: bv8)
    ensures ByteNumber(a) as bv8 == a
  {
  }

  lemma HalfDifference(a: bv8, b: bv8)
    ensures ByteNumber(Half(a)) == ByteNumber(a) / 2 && ByteNumber(Half(b)) == ByteNumber(b) / 2
    ensures ByteNumber(Difference(Half(a), Half(b))) == ByteNumber(Difference(a, b)) / 2
  {
    HalfByte(a);
    HalfByte(b);
    HalfByte(a ^ b);
    HalvesDiffer(a, b);
  }

  lemma HalvesDiffer(a: bv8, b: bv8)
    ensures (a ^ b) >> 1 == (a >> 1) ^ (b >> 1)
  {
  }

  /** The number of leading bits that two byte strings share, found at the first
      byte in which they differ. */
  method CommonBits(a: seq<bv8>, b: seq<bv8>) returns (common: int)
    requires |a| == |b|
    ensures common == 8 * |a| - NarrowestHost(BytesValue(a), BytesValue(b))
  {
    hide Difference, ByteNumber, BytesValue;
    common := 8 * |a|;
    for index := 0 to |a|
      invariant common == 8 * |a| && a[..index] == b[..index]
    {
      var difference := Difference(a[index], b[index]);
      DifferentBytes(a[index], b[index]);
      if difference != 0 {
        common := index * 8 + LeadingZeros8(difference);
        assert a[..index + 1][..index] == a[..index] && b[..index + 1][..index] == b[..index];
        FirstDifference(a[..index + 1], b[..index + 1], index);
        LaterBytes(a, b, index + 1);
        return;
      }
      assert a[index] == b[index];
    }
    assert a[..|a|] == a && b[..|b|] == b;
  }

  lemma LastByte(b: seq<bv8>, n: nat)
    requires |b| == n + 1
    ensures BytesValue(b) == 256 * BytesValue(b[..n]) + ByteNumber(b[n]) && ByteNumber(b[n]) < 256
  {
    ByteIsNumber(b[n]);
  }

  lemma {:induction false} FirstDifference(a: seq<bv8>, b: seq<bv8>, n: nat)
    requires |a| == |b| == n + 1 && a[..n] == b[..n] && a[n] != b[n]
    ensures NarrowestHost(BytesValue(a), BytesValue(b)) == BitLength(ByteNumber(Difference(a[n], b[n])))
    ensures BytesValue(a) != BytesValue(b)
  {
    hide Difference, ByteNumber, BytesValue;
    LastByte(a, n);
    LastByte(b, n);
    NarrowestOfBytes(BytesValue(a[..n]), ByteNumber(a[n]), BytesValue(b[..n]), ByteNumber(b[n]));
    DifferenceOfBytes(a[n], b[n]);
    DifferentBytes(a[n], b[n]);
  }

  /** Bytes after a difference only add host bits. */
  lemma {:induction false} LaterBytes(a: seq<bv8>, b: seq<bv8>, n: nat)
    requires |a| == |b| && n <= |a| && BytesValue(a[..n]) != BytesValue(b[..n])
    ensures BytesValue(a) != BytesValue(b)
    ensures NarrowestHost(BytesValue(a), BytesValue(b)) == 8 * (|a| - n) + NarrowestHost(BytesValue(a[..n]), BytesValue(b[..n]))
  {
    hide NarrowestHost, ByteNumber, BytesValue;
    if n == |a| {
      assert a[..n] == a && b[..n] == b;
    } else {
      var m := |a| - 1;
      assert a[..m][..n] == a[..n] && b[..m][..n] == b[..n];
      LaterBytes(a[..m], b[..m], n);
      LastByte(a, m);
      LastByte(b, m);
      NarrowestOfBytes(BytesValue(a[..m]), ByteNumber(a[m]), BytesValue(b[..m]), ByteNumber(b[m]));
    }
  }

  /** Some block of an allowed size within the scannable space holds both values. */
  ghost predicate FitsBoth(a: nat, b: nat, base: seq<Range>, maxHost: nat) {
    exists c: Block :: Fits(c, base, maxHost) && c.Has(a) && c.Has(b)
  }

  /** Every block that holds two values holds the narrowest one that does. */
  lemma NarrowestWithin(a: nat, b: nat, c: Block)
    requires c.Aligned() && c.Has(a) && c.Has(b)
    ensures var host := NarrowestHost(a, b);
            var narrowest := Block(Masked(a, host), host);
            host <= c.host && narrowest.Aligned() && c.Contains(narrowest)
  {
    hide Masked, NarrowestHost, Network;
    var host := NarrowestHost(a, b);
    BlockIsNetwork(c, a);
    BlockIsNetwork(c, b);
    NarrowestHostIsLeast(a, b, c.host);
    NarrowestHas(a, b);
    MaskedIsAligned(a, host);
    NestedOrApart(Block(Masked(a, host), host), c);
  }

  lemma NarrowestHas(a: nat, b: nat)
    ensures var host := NarrowestHost(a, b);
            var narrowest := Block(Masked(a, host), host);
            narrowest.Aligned() && narrowest.Has(a) && narrowest.Has(b) && narrowest.Last() == WithHostBits(a, host)
  {
    hide Masked, NarrowestHost, Network, WithHostBits;
    var host := NarrowestHost(a, b);
    MaskedIsAligned(a, host);
    NarrowestHostIsLeast(a, b, host);
    NetworkIsInterval(a, a, host);
    NetworkIsInterval(a, b, host);
    MaskedLast(a, host);
  }

  lemma {:induction false} MaskedLast(value: nat, host: nat)
    ensures Block(Masked(value, host), host).Last() == WithHostBits(value, host)
  {
    if host == 0 {
    } else {
      MaskedLast(value / 2, host - 1);
    }
  }

  lemma {:induction false} SmallHost(a: nat, b: nat, width: nat)
    requires a < Pow2(width) && b < Pow2(width)
    ensures NarrowestHost(a, b) <= width
  {
    if a != b && width > 0 {
      SmallHost(a / 2, b / 2, width - 1);
    }
  }

  /** Whether the narrowest IPv4 prefix with both endpoints is allowed: then, and
      only then, some allowed prefix holds both. */
  method PrefixFitsBase(a: Addr, b: Addr, minPrefixBits: nat, base: seq<Range>) returns (fits: bool)
    requires Canonical(base) && minPrefixBits <= 32
    ensures fits <==> a.Addr? && b.Addr? && a.family.V4? && b.family.V4? && FitsBoth(a.value, b.value, base, 32 - minPrefixBits)
  {
    hide Places, RangePlaces, Canonical, BytesValue, Bytes, NarrowestHost, Masked, WithHostBits, Network;
    if a.NoAddr? || b.NoAddr? || a.family.V6? || b.family.V6? {
      return false;
    }
    WidthBounds(a);
    WidthBounds(b);
    BytesWrite(a.value, 4);
    BytesWrite(b.value, 4);
    SmallHost(a.value, b.value, 32);
    var commonBits := CommonBits(Bytes(a.value, 4), Bytes(b.value, 4));
    assert commonBits == 32 - NarrowestHost(a.value, b.value);
    if commonBits < minPrefixBits {
      TooNarrow(a.value, b.value, base, 32 - minPrefixBits);
      return false;
    }
    var r := FromPrefix(Prefix(a, commonBits));
    fits := Contains(base, r);
    NarrowestDecides(a, b, base, 32 - minPrefixBits, r);
  }

  lemma TooNarrow(a: nat, b: nat, base: seq<Range>, maxHost: nat)
    requires NarrowestHost(a, b) > maxHost
    ensures !FitsBoth(a, b, base, maxHost)
  {
    hide Masked, NarrowestHost, Places;
    forall c: Block | c.Aligned() && c.Has(a) && c.Has(b)
      ensures c.host > maxHost
    {
      NarrowestWithin(a, b, c);
    }
  }

  lemma NarrowestDecides(a: Addr, b: Addr, base: seq<Range>, maxHost: nat, r: Range)
    requires a.Addr? && b.Addr? && a.family.V4? && b.family.V4? && NarrowestHost(a.value, b.value) <= maxHost
    requires r.Valid() && r.from.family.V4?
    requires var host := NarrowestHost(a.value, b.value);
             r.from.value == Masked(a.value, host) && r.to.value == WithHostBits(a.value, host)
    ensures RangePlaces(r) <= Places(base) <==> FitsBoth(a.value, b.value, base, maxHost)
  {
    hide Masked, NarrowestHost, Places, WithHostBits;
    var host := NarrowestHost(a.value, b.value);
    var narrowest := Block(Masked(a.value, host), host);
    NarrowestHas(a.value, b.value);
    assert RangePlaces(r) == BlockPlaces(narrowest);
    if RangePlaces(r) <= Places(base) {
      assert Fits(narrowest, base, maxHost);
    }
    if FitsBoth(a.value, b.value, base, maxHost) {
      var c: Block :| Fits(c, base, maxHost) && c.Has(a.value) && c.Has(b.value);
      NarrowestWithin(a.value, b.value, c);
      assert BlockPlaces(narrowest) <= BlockPlaces(c);
    }
  }

  // ----- The boundary test -----

  ghost predicate Holds(b: Block, places: set<int>) {
    exists p: int :: p in places && b.Has(p)
  }

  /** No allowed block holds addresses of both sets. */
  ghost predicate NoneHolds(base: seq<Range>, maxHost: nat, x: set<int>, y: set<int>) {
    forall b: Block :: Fits(b, base, maxHost) && Holds(b, x) ==> !Holds(b, y)
  }

  /** The closest endpoints of two ranges decide for the one and all ranges from the
      other on: a block is an interval. */
  lemma {:induction false} EndpointsDecide(base: seq<Range>, maxHost: nat, r: Range, later: seq<Range>, j: nat)
    requires Canonical(later) && r.Valid() && j < |later| && Compare(r.to, later[j].from) < 0
    requires !(r.to.family.V4? && later[j].from.family.V4? && FitsBoth(r.to.value, later[j].from.value, base, maxHost))
    ensures NoneHolds(base, maxHost, RangePlaces(r), Places(later) - Places(later[..j]))
  {
    hide Places, Compare;
    PlaceKeepsOrder(r.to, later[j].from);
    forall b: Block, x: int, y: int
      | Fits(b, base, maxHost) && x in RangePlaces(r) && b.Has(x) && y in Places(later) - Places(later[..j]) && b.Has(y)
      ensures false
    {
      FromRange(later, j, y);
      BothEndpoints(r.to, later[j].from, b, x, y);
    }
  }

  lemma BothEndpoints(a: Addr, c: Addr, b: Block, x: int, y: int)
    requires a.Addr? && c.Addr? && b.Last() <= LAST4 && x <= Place(a) < Place(c) <= y && b.Has(x) && b.Has(y)
    ensures a.family.V4? && c.family.V4? && b.Has(a.value) && b.Has(c.value)
  {
  }

  lemma {:induction false} FromRange(later: seq<Range>, j: nat, y: int)
    requires Canonical(later) && j < |later| && y in Places(later) && y !in Places(later[..j])
    ensures Place(later[j].from) <= y
  {
    hide Places;
    HeldAfter(later, j, y);
    var i :| j <= i < |later| && y in RangePlaces(later[i]);
    if j < i {
      PlaceKeepsOrder(later[j].from, later[j].to);
      assert Place(later[j].to) + 1 < Place(later[i].from);
    }
  }

  lemma {:induction false} HeldAfter(later: seq<Range>, j: nat, y: int)
    requires j <= |later| && y in Places(later) && y !in Places(later[..j])
    ensures exists i :: j <= i < |later| && y in RangePlaces(later[i])
  {
    hide Places, RangePlaces;
    Held(later, y);
    Held(later[..j], y);
    forall i | 0 <= i < j
      ensures later[..j][i] == later[i]
    {
    }
  }

  lemma NoneHoldsUnion(base: seq<Range>, maxHost: nat, x: set<int>, r: set<int>, y: set<int>, before: set<int>)
    requires NoneHolds(base, maxHost, x, y) && NoneHolds(base, maxHost, r, y - before) && NoneHolds(base, maxHost, before, r)
    ensures NoneHolds(base, maxHost, x + r, y)
  {
    hide Fits;
    forall b: Block | Fits(b, base, maxHost) && Holds(b, x + r)
      ensures !Holds(b, y)
    {
      var p :| p in x + r && b.Has(p);
      if p in x {
        assert Holds(b, x);
      } else {
        assert Holds(b, r) && !Holds(b, y - before) && !Holds(b, before);
        forall q: int | q in y
          ensures !b.Has(q)
        {
          assert q in y - before || q in before;
        }
      }
    }
  }

  lemma NoneHoldsLess(base: seq<Range>, maxHost: nat, x: set<int>, y: set<int>, less: set<int>)
    requires NoneHolds(base, maxHost, x, y)
    ensures NoneHolds(base, maxHost, y, x)
    ensures less <= x ==> NoneHolds(base, maxHost, less, y)
  {
    hide Fits;
    forall b: Block | Holds(b, less) && less <= x
      ensures Holds(b, x)
    {
      var p: int :| p in less && b.Has(p);
      assert p in x;
    }
  }

  /** Two lists whose boundaries are tested: no allowed block holds addresses of both,
      as far as one of them is taken. */
  ghost predicate Tested(base: seq<Range>, maxHost: nat, x: seq<Range>, i: nat, y: seq<Range>, j: nat)
    requires i <= |x| && j <= |y|
  {
    NoneHolds(base, maxHost, Places(x[..i]), Places(y)) && NoneHolds(base, maxHost, Places(y[..j]), Places(x))
  }

  /** The next boundary is tested. */
  lemma {:induction false} TestsNext(base: seq<Range>, maxHost: nat, x: seq<Range>, i: nat, y: seq<Range>, j: nat)
    requires Canonical(x) && Canonical(y) && i < |x| && j < |y| && Tested(base, maxHost, x, i, y, j)
    requires Compare(x[i].to, y[j].from) < 0
    requires !(x[i].to.family.V4? && y[j].from.family.V4? && FitsBoth(x[i].to.value, y[j].from.value, base, maxHost))
    ensures Tested(base, maxHost, x, i + 1, y, j)
  {
    hide Places, RangePlaces, NoneHolds, FitsBoth, Compare;
    EndpointsDecide(base, maxHost, x[i], y, j);
    Within(x, i);
    NoneHoldsLess(base, maxHost, Places(y[..j]), Places(x), {});
    NoneHoldsLess(base, maxHost, Places(x), Places(y[..j]), RangePlaces(x[i]));
    NoneHoldsLess(base, maxHost, RangePlaces(x[i]), Places(y[..j]), {});
    NoneHoldsUnion(base, maxHost, Places(x[..i]), RangePlaces(x[i]), Places(y), Places(y[..j]));
    PlacesPrefix(x, i);
  }

  /** A boundary that fits shows an allowed block with addresses of both sides. */
  lemma {:induction false} BoundaryHolds(base: seq<Range>, maxHost: nat, x: seq<Range>, i: nat, y: seq<Range>, j: nat)
    requires Canonical(x) && Canonical(y) && i < |x| && j < |y|
    requires x[i].to.family.V4? && y[j].from.family.V4? && FitsBoth(x[i].to.value, y[j].from.value, base, maxHost)
    ensures !NoneHolds(base, maxHost, Places(x), Places(y))
  {
    hide Places;
    var b: Block :| Fits(b, base, maxHost) && b.Has(x[i].to.value) && b.Has(y[j].from.value);
    PlaceKeepsOrder(x[i].from, x[i].to);
    PlaceKeepsOrder(y[j].from, y[j].to);
    Within(x, i);
    Within(y, j);
    assert x[i].to.value in Places(x) && y[j].from.value in Places(y);
    assert Holds(b, Places(x)) && Holds(b, Places(y));
  }

  /** Ranges that share no address lie one before the other. */
  lemma {:induction false} Apart(x: seq<Range>, i: nat, y: seq<Range>, j: nat)
    requires Canonical(x) && Canonical(y) && i < |x| && j < |y| && Places(x) !! Places(y)
    ensures Compare(x[i].to, y[j].from) < 0 || Compare(y[j].to, x[i].from) < 0
  {
    hide Places;
    Within(x, i);
    Within(y, j);
    PlaceKeepsOrder(x[i].from, x[i].to);
    PlaceKeepsOrder(y[j].from, y[j].to);
    PlaceKeepsOrder(x[i].to, y[j].from);
    PlaceKeepsOrder(y[j].to, x[i].from);
    var p := if Place(x[i].from) < Place(y[j].from) then Place(y[j].from) else Place(x[i].from);
    assert p in RangePlaces(x[i]) && p in RangePlaces(y[j]) <==> Place(x[i].to) >= Place(y[j].from) && Place(y[j].to) >= Place(x[i].from);
  }

  /** Some allowed prefix holds both a gap and covered scannable space. */
  ghost predicate CanInclude(base: seq<Range>, gaps: seq<Range>, maxHost: nat) {
    !NoneHolds(base, maxHost, Places(base) * Places(gaps), Places(base) - Places(gaps))
  }

  /** The block is aligned, of no fewer prefix bits than allowed and in base, and x is a
      gap address of it and y one that is no gap. */
  ghost predicate Includes(b: Block, x: int, y: int, base: seq<Range>, gaps: seq<Range>, minPrefixBits: nat) {
    && b.host + minPrefixBits <= 32 && b.from % Pow2(b.host) == 0 && b.from + Pow2(b.host) <= 0x1_0000_0000
    && (forall a: int :: b.from <= a < b.from + Pow2(b.host) ==> a in Places(base))
    && b.from <= x < b.from + Pow2(b.host) && x in Places(gaps)
    && b.from <= y < b.from + Pow2(b.host) && y !in Places(gaps)
  }

  lemma {:induction false} CanIncludeMeans(base: seq<Range>, gaps: seq<Range>, minPrefixBits: nat)
    requires minPrefixBits <= 32
    ensures CanInclude(base, gaps, 32 - minPrefixBits) <==> exists b: Block, x: int, y: int :: Includes(b, x, y, base, gaps, minPrefixBits)
  {
    hide Places, Pow2;
    var maxHost := 32 - minPrefixBits;
    var inside, outside := Places(base) * Places(gaps), Places(base) - Places(gaps);
    if CanInclude(base, gaps, maxHost) {
      var b: Block :| Fits(b, base, maxHost) && Holds(b, inside) && Holds(b, outside);
      var x: int :| x in inside && b.Has(x);
      var y: int :| y in outside && b.Has(y);
      forall a: int | b.from <= a < b.from + Pow2(b.host)
        ensures a in Places(base)
      {
        assert a in BlockPlaces(b);
      }
      assert Includes(b, x, y, base, gaps, minPrefixBits);
    }
    if b: Block, x: int, y: int :| Includes(b, x, y, base, gaps, minPrefixBits) {
      assert x in inside && b.Has(x) && y in outside && b.Has(y);
      assert Fits(b, base, maxHost) && Holds(b, inside) && Holds(b, outside);
    }
  }

  /** An empty set holds no place, and a single address is not of two disjoint sets. */
  lemma NoPlaceToHold(base: seq<Range>, maxHost: nat, x: set<int>, y: set<int>)
    ensures x == {} || y == {} || (x !! y && maxHost == 0) ==> NoneHolds(base, maxHost, x, y)
  {
    hide Places;
    assert Pow2(0) == 1;
    forall b: Block | x !! y && maxHost == 0 && Fits(b, base, maxHost) && Holds(b, x)
      ensures !Holds(b, y)
    {
      forall p: int | p in y
        ensures !b.Has(p)
      {
        var q: int :| q in x && b.Has(q);
        assert p != q;
      }
    }
  }

  lemma EitherWay(base: seq<Range>, maxHost: nat, x: set<int>, y: set<int>)
    ensures NoneHolds(base, maxHost, x, y) ==> NoneHolds(base, maxHost, y, x)
  {
    hide Places, Fits, Holds;
  }

  lemma AllTested(base: seq<Range>, maxHost: nat, x: seq<Range>, i: nat, y: seq<Range>, j: nat)
    requires i <= |x| && j <= |y| && Tested(base, maxHost, x, i, y, j) && (i == |x| || j == |y|)
    ensures NoneHolds(base, maxHost, Places(x), Places(y))
  {
    hide Places, NoneHolds;
    assert x[..|x|] == x && y[..|y|] == y;
    EitherWay(base, maxHost, Places(y), Places(x));
  }

  /** Decides it from the boundaries between gaps and covered space alone. */
  method CanIncludeCovered(base: seq<Range>, gaps0: seq<Range>, minPrefixBits: nat) returns (can: bool)
    requires Canonical(base) && minPrefixBits <= 32
    ensures can <==> CanInclude(base, gaps0, 32 - minPrefixBits)
    ensures can <==> exists b: Block, x: int, y: int :: Includes(b, x, y, base, gaps0, minPrefixBits)
  {
    hide Places, RangePlaces, Canonical, NoneHolds, FitsBoth, Compare, AllValid, Includes;
    ghost var maxHost := 32 - minPrefixBits;
    CanIncludeMeans(base, gaps0, minPrefixBits);
    NoPlaces();
    NoPlaceToHold(base, maxHost, Places(base) * Places(gaps0), Places(base) - Places(gaps0));
    if |base| == 0 || |gaps0| == 0 || minPrefixBits >= 32 {
      return false;
    }
    var gaps := Intersect(base, gaps0);
    var covered := Subtract(base, gaps);
    assert Places(covered) == Places(base) - Places(gaps0);
    NoPlaceToHold(base, maxHost, Places(gaps), Places(covered));
    assert gaps[..0] == [] && covered[..0] == [];
    NoPlaceToHold(base, maxHost, {}, Places(covered));
    NoPlaceToHold(base, maxHost, {}, Places(gaps));
    if |gaps| == 0 || |covered| == 0 {
      return false;
    }
    CanonicalIsValid(gaps);
    CanonicalIsValid(covered);
    var gapIndex, coveredIndex := 0, 0;
    while gapIndex < |gaps| && coveredIndex < |covered|
      invariant gapIndex <= |gaps| && coveredIndex <= |covered|
      invariant Tested(base, maxHost, gaps, gapIndex, covered, coveredIndex)
    {
      var gap, cover := gaps[gapIndex], covered[coveredIndex];
      ValidAt(gaps, gapIndex);
      ValidAt(covered, coveredIndex);
      Apart(gaps, gapIndex, covered, coveredIndex);
      if Compare(gap.to, cover.from) < 0 {
        var fits := PrefixFitsBase(gap.to, cover.from, minPrefixBits, base);
        if fits {
          BoundaryHolds(base, maxHost, gaps, gapIndex, covered, coveredIndex);
          return true;
        }
        TestsNext(base, maxHost, gaps, gapIndex, covered, coveredIndex);
        gapIndex := gapIndex + 1;
      } else if Compare(cover.to, gap.from) < 0 {
        var fits := PrefixFitsBase(cover.to, gap.from, minPrefixBits, base);
        if fits {
          BoundaryHolds(base, maxHost, covered, coveredIndex, gaps, gapIndex);
          EitherWay(base, maxHost, Places(gaps), Places(covered));
          return true;
        }
        TestsNext(base, maxHost, covered, coveredIndex, gaps, gapIndex);
        coveredIndex := coveredIndex + 1;
      } else {
        // Gaps and covered ranges are complements within base.
        assert false;
      }
    }
    AllTested(base, maxHost, gaps, gapIndex, covered, coveredIndex);
    return false;
  }
}
