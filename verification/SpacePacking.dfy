/** Packing a whole address space, family by family, into target sets. */
module SpacePacking {
  import opened AlignedBlocks
  import opened AddressRanges
  import opened CidrCover
  import opened FirstFit
  import opened PackedRuns
  import opened MonitorPacking

  // ----- The shift of a set size -----

  /** The number of bits of a word without its leading zeros. */
  function BitLength(x: nat): nat {
    if x == 0 then 0 else 1 + BitLength(x / 2)
  }

  /** 2^Shift is the largest power of two that is not above a set size. */
  function Shift(perMonitor: nat): int {
    BitLength(perMonitor) - 1
  }

  lemma {:induction false} ShiftBounds(x: nat)
    requires 0 < x < TWO64
    ensures 0 <= Shift(x) < 64 && Pow2(Shift(x)) <= x < 2 * Pow2(Shift(x))
  {
    BitLengthBounds(x);
    Pow2Values();
    if BitLength(x) > 64 {
      Pow2Grows(64, BitLength(x) - 1);
    }
  }

  lemma {:induction false} BitLengthBounds(x: nat)
    requires x > 0
    ensures BitLength(x) > 0 && Pow2(BitLength(x) - 1) <= x < 2 * Pow2(BitLength(x) - 1)
  {
    if x <= 1 {
    } else {
      BitLengthBounds(x / 2);
    }
  }

  // ----- The blocks of a space -----

  ghost function CoverOf(r: Range): seq<Block>
    requires r.Valid()
  {
    WidthBounds(r.from);
    AlignedBlocks.Cover(BitLen(r.from), r.from.value, r.to.value)
  }

  ghost predicate OneFamily(ranges: seq<Range>, family: Family) {
    forall i :: 0 <= i < |ranges| ==> ranges[i].Valid() && ranges[i].from.family == family
  }

  /** The CIDRs of all the ranges, in address order. */
  ghost function CoverAll(ranges: seq<Range>, family: Family): seq<Block>
    requires OneFamily(ranges, family)
  {
    if ranges == [] then [] else CoverAll(ranges[..|ranges| - 1], family) + CoverOf(ranges[|ranges| - 1])
  }

  /** What plain first fit packs a space of one family into. */
  ghost function PlainSets(ranges: seq<Range>, family: Family, perMonitor: nat): seq<Bin>
    requires OneFamily(ranges, family) && 0 < perMonitor < TWO64
  {
    ShiftBounds(perMonitor);
    FirstFit.Pack(CoverAll(ranges, family), perMonitor, Shift(perMonitor))
  }

  lemma {:induction false} CoverOfIsSmall(r: Range)
    requires r.Valid()
    ensures |CoverOf(r)| <= 254
    ensures forall i :: 0 <= i < |CoverOf(r)| ==> CoverOf(r)[i].Aligned() && CoverOf(r)[i].Last() <= r.to.value
  {
    hide AlignedBlocks.Cover, Pow2;
    WidthBounds(r.from);
    CoverIsShort(BitLen(r.from), r.from.value, r.to.value);
    CoverPartitions(BitLen(r.from), r.from.value, r.to.value);
    PartitionHolds(AlignedBlocks.Cover(BitLen(r.from), r.from.value, r.to.value), BitLen(r.from), r.from.value, r.to.value);
  }

  lemma {:induction false} CoverAllIsSmall(ranges: seq<Range>, family: Family)
    requires OneFamily(ranges, family)
    ensures |CoverAll(ranges, family)| <= 254 * |ranges|
  {
    hide CoverOf;
    if ranges == [] {
    } else {
      CoverAllIsSmall(ranges[..|ranges| - 1], family);
      CoverOfIsSmall(ranges[|ranges| - 1]);
    }
  }

  lemma {:induction false} CoverAllNext(ranges: seq<Range>, family: Family, i: nat)
    requires OneFamily(ranges, family) && i < |ranges|
    ensures CoverAll(ranges[..i + 1], family) == CoverAll(ranges[..i], family) + CoverOf(ranges[i])
  {
    assert ranges[..i + 1][..i] == ranges[..i];
  }

  // ----- Sorting a set -----

  function InsertPrefix(prefixes: seq<Prefix>, p: Prefix): seq<Prefix> {
    if prefixes == [] || Compare(p.addr, prefixes[0].addr) <= 0 then [p] + prefixes
    else [prefixes[0]] + InsertPrefix(prefixes[1..], p)
  }

  function SortPrefixes(prefixes: seq<Prefix>): seq<Prefix> {
    if prefixes == [] then []
    else InsertPrefix(SortPrefixes(prefixes[..|prefixes| - 1]), prefixes[|prefixes| - 1])
  }

  ghost predicate InAddressOrder(prefixes: seq<Prefix>) {
    forall i, j :: 0 <= i < j < |prefixes| ==> Compare(prefixes[i].addr, prefixes[j].addr) <= 0
  }

  lemma {:induction false} InsertPrefixKeeps(prefixes: seq<Prefix>, p: Prefix)
    ensures multiset(InsertPrefix(prefixes, p)) == multiset(prefixes) + multiset{p}
  {
    hide Compare;
    if prefixes != [] && Compare(p.addr, prefixes[0].addr) > 0 {
      InsertPrefixKeeps(prefixes[1..], p);
      assert prefixes == [prefixes[0]] + prefixes[1..];
    }
  }

  lemma CompareOrders(a: Addr, b: Addr, c: Addr)
    ensures Compare(a, b) > 0 ==> Compare(b, a) <= 0
    ensures Compare(a, b) <= 0 && Compare(b, c) <= 0 ==> Compare(a, c) <= 0
  {
  }

  lemma {:induction false} InsertPrefixSorts(prefixes: seq<Prefix>, p: Prefix)
    requires InAddressOrder(prefixes)
    ensures InAddressOrder(InsertPrefix(prefixes, p))
  {
    hide Compare;
    if prefixes == [] {
    } else if Compare(p.addr, prefixes[0].addr) <= 0 {
      forall i | 0 <= i < |prefixes|
        ensures Compare(p.addr, prefixes[i].addr) <= 0
      {
        CompareOrders(p.addr, prefixes[0].addr, prefixes[i].addr);
      }
    } else {
      var rest := InsertPrefix(prefixes[1..], p);
      InsertPrefixSorts(prefixes[1..], p);
      InsertPrefixKeeps(prefixes[1..], p);
      CompareOrders(p.addr, prefixes[0].addr, p.addr);
      forall i | 0 <= i < |rest|
        ensures Compare(prefixes[0].addr, rest[i].addr) <= 0
      {
        assert rest[i] in multiset(rest);
        if rest[i] != p {
          assert rest[i] in prefixes[1..];
        }
      }
    }
  }

  lemma {:induction false} SortPrefixesSorts(prefixes: seq<Prefix>)
    ensures InAddressOrder(SortPrefixes(prefixes))
    ensures multiset(SortPrefixes(prefixes)) == multiset(prefixes)
  {
    hide InsertPrefix;
    if prefixes == [] {
    } else {
      var n := |prefixes| - 1;
      SortPrefixesSorts(prefixes[..n]);
      InsertPrefixSorts(SortPrefixes(prefixes[..n]), prefixes[n]);
      InsertPrefixKeeps(SortPrefixes(prefixes[..n]), prefixes[n]);
      assert prefixes == prefixes[..n] + [prefixes[n]];
    }
  }

  /** The CIDRs of a set are those of the plain set, in address order. */
  ghost predicate SortedSet(prefixes: seq<Prefix>, bin: Bin, family: Family) {
    && InAddressOrder(prefixes)
    && exists joined :: Lists(joined, bin.items, family) && multiset(joined) == multiset(prefixes)
  }

  // ----- Packing one family -----

  lemma {:induction false} OpenLargeNext(blocks: seq<Block>, b: Block, perMonitor: nat, shift: nat)
    requires Pow2(shift) <= perMonitor
    ensures OpenLarge(blocks + [b], perMonitor, shift)
            == OpenLarge(blocks, perMonitor, shift)
               + if b.host < shift then [] else Opened(Pieces(b.from, shift, Pow2(b.host - shift)), perMonitor - Pow2(shift))
    ensures Small(blocks + [b], shift) == Small(blocks, shift) + if b.host < shift then [b] else []
  {
    assert (blocks + [b])[..|blocks|] == blocks;
  }

  lemma {:induction false} JoinAllNext(bins: seq<Bin>, blocks: seq<Block>, perMonitor: nat, shift: nat, j: nat)
    requires AllSmall(blocks, shift) && Pow2(shift) <= perMonitor && j < |blocks|
    ensures Pow2(blocks[j].host) <= perMonitor
    ensures JoinAll(bins, blocks[..j + 1], perMonitor, shift) == Join(JoinAll(bins, blocks[..j], perMonitor, shift), blocks[j], perMonitor)
  {
    Pow2Grows(blocks[j].host, shift);
    assert blocks[..j + 1][..j] == blocks[..j];
  }

  /** The first sets, sorted, and the number of all of them. */
  ghost predicate PackedAs(sets: seq<seq<Prefix>>, total: int, bins: seq<Bin>, limit: int, family: Family) {
    && |sets| == (if limit < 0 then 0 else if limit < |bins| then limit else |bins|)
    && (forall i :: 0 <= i < |sets| ==> SortedSet(sets[i], bins[i], family))
    && total == (if |bins| > 0x7fff_ffff_ffff_ffff then 0x7fff_ffff_ffff_ffff else |bins|)
  }

  lemma NothingCovered(family: Family, perMonitor: nat, shift: nat)
    requires Pow2(shift) <= perMonitor
    ensures CoverAll([], family) == [] && OpenLarge([], perMonitor, shift) == [] && Lists([], Small([], shift), family)
  {
    NoBlocks();
  }

  lemma ListsNext(prefixes: seq<Prefix>, items: seq<Block>, p: Prefix, family: Family)
    requires Lists(prefixes, items, family) && p.IsValid() && p.addr.family == family
    ensures Lists(prefixes + [p], items + [BlockOf(p)], family)
  {
    NextBlock(prefixes, p);
  }

  lemma ListsAt(prefixes: seq<Prefix>, items: seq<Block>, family: Family, k: nat)
    requires Lists(prefixes, items, family) && k < |prefixes|
    ensures |items| == |prefixes| && prefixes[k].IsValid() && prefixes[k].addr.family == family && items[k] == BlockOf(prefixes[k])
  {
  }

  /** Opens the sets of the large CIDRs of a range, and lists its small ones. */
  method AddRange(packing: Packing, r: Range, small0: seq<Prefix>, ghost before: seq<Block>) returns (small: seq<Prefix>)
    requires packing.Valid() && packing.perMonitor < 2 * Pow2(packing.shift)
    requires r.Valid() && r.from.family == packing.family
    requires packing.bins == OpenLarge(before, packing.perMonitor, packing.shift)
    requires Lists(small0, Small(before, packing.shift), packing.family)
    modifies packing
    ensures packing.Valid() && packing.splits == old(packing.splits)
    ensures packing.bins == OpenLarge(before + CoverOf(r), packing.perMonitor, packing.shift)
    ensures Lists(small, Small(before + CoverOf(r), packing.shift), packing.family)
  {
    hide CoverOf, OpenLarge, Small, Pow2, Lists, OfFamily, AlignedBlocks.Cover, Packing.Valid, Blocks, Opened, Pieces;
    small := small0;
    var cover := CidrCover.Cover(r);
    ghost var blocks := CoverOf(r);
    CoverLists(r, cover);
    CoverOfIsSmall(r);
    WithinFamily(r);
    PackingFits(packing);
    assert before + blocks[..0] == before;
    for k := 0 to |cover|
      invariant packing.Valid() && packing.splits == old(packing.splits)
      invariant packing.bins == OpenLarge(before + blocks[..k], packing.perMonitor, packing.shift)
      invariant Lists(small, Small(before + blocks[..k], packing.shift), packing.family)
    {
      var prefix := cover[k];
      ListsAt(cover, blocks, packing.family, k);
      OpenLargeNext(before + blocks[..k], blocks[k], packing.perMonitor, packing.shift);
      assert before + blocks[..k + 1] == before + blocks[..k] + [blocks[k]];
      if prefix.HostBits() < packing.shift {
        ListsNext(small, Small(before + blocks[..k], packing.shift), prefix, packing.family);
        small := small + [prefix];
      } else {
        assert Small(before + blocks[..k], packing.shift) + [] == Small(before + blocks[..k], packing.shift);
        packing.AddLarge(prefix);
      }
    }
    ListsLength(cover, blocks, packing.family);
    assert blocks[..|cover|] == blocks;
  }

  lemma PackingFits(packing: Packing)
    requires packing.Valid()
    ensures packing.shift < 64 && Pow2(packing.shift) <= packing.perMonitor
  {
  }

  lemma ListsLength(prefixes: seq<Prefix>, items: seq<Block>, family: Family)
    requires Lists(prefixes, items, family)
    ensures |prefixes| == |items|
  {
  }

  lemma WithinFamily(r: Range)
    requires r.Valid()
    ensures r.to.value <= Last(r.from.family)
  {
  }

  lemma CoverLists(r: Range, cover: seq<Prefix>)
    requires r.Valid() && OfFamily(cover, r.from.family) && r.to.value < Pow2(BitLen(r.from))
    requires Blocks(cover) == AlignedBlocks.Cover(BitLen(r.from), r.from.value, r.to.value)
    ensures Lists(cover, CoverOf(r), r.from.family)
  {
  }

  /** Packs merged ranges of one family: the first `limit` sets and the total are
      those of plain first fit. */
  method PackFamily(merged: seq<Range>, perMonitor: uint64, limit: int, family: Family)
    returns (sets: seq<seq<Prefix>>, total: int)
    requires OneFamily(merged, family) && |merged| <= MAXINT / 256
    requires perMonitor > 0 && limit <= MAXINT
    ensures PackedAs(sets, total, PlainSets(merged, family, perMonitor), limit, family)
  {
    hide CoverOf, CoverAll, OpenLarge, Small, JoinAll, Join, Pow2, BitLength, Shown, OfFamily, Blocks, Lists, AlignedBlocks.Cover, Packing.Valid, AllSmall;
    ShiftBounds(perMonitor);
    var shift := Shift(perMonitor);
    var packing := new Packing(perMonitor, limit, shift, family);
    var small: seq<Prefix> := [];
    NothingCovered(family, perMonitor, shift);
    assert merged[..0] == [];
    for i := 0 to |merged|
      invariant packing.Valid() && packing.splits == 0
      invariant packing.bins == OpenLarge(CoverAll(merged[..i], family), perMonitor, shift)
      invariant Lists(small, Small(CoverAll(merged[..i], family), shift), family)
    {
      CoverAllNext(merged, family, i);
      small := AddRange(packing, merged[i], small, CoverAll(merged[..i], family));
    }
    assert merged[..|merged|] == merged;
    ghost var blocks := CoverAll(merged, family);
    CoverAllIsSmall(merged, family);
    AddAllSmall(packing, small, blocks);
    sets, total := SortedSets(packing);
  }

  /** Joins the small CIDRs in address order. */
  method AddAllSmall(packing: Packing, small: seq<Prefix>, ghost blocks: seq<Block>)
    requires packing.Valid() && packing.splits == 0 && |blocks| <= MAXINT - 4
    requires packing.bins == OpenLarge(blocks, packing.perMonitor, packing.shift)
    requires Lists(small, Small(blocks, packing.shift), packing.family)
    modifies packing, packing.firstFit
    ensures packing.Valid()
    ensures Pow2(packing.shift) <= packing.perMonitor && packing.bins == FirstFit.Pack(blocks, packing.perMonitor, packing.shift)
  {
    hide OpenLarge, Small, JoinAll, Join, Pow2, Lists, Packing.Valid, AllSmall;
    ghost var items := Small(blocks, packing.shift);
    ListsLength(small, items, packing.family);
    PackingFits(packing);
    SmallPrefixes(items, packing.shift);
    NoneJoined(packing.bins, packing.perMonitor, packing.shift);
    assert items[..0] == [];
    for j := 0 to |small|
      invariant packing.Valid() && packing.splits == j
      invariant AllSmall(items[..j], packing.shift)
      invariant packing.bins == JoinAll(OpenLarge(blocks, packing.perMonitor, packing.shift), items[..j], packing.perMonitor, packing.shift)
    {
      ListsAt(small, items, packing.family, j);
      SmallAt(items, packing.shift, j);
      JoinAllNext(OpenLarge(blocks, packing.perMonitor, packing.shift), items, packing.perMonitor, packing.shift, j);
      packing.AddSmall(small[j]);
    }
    assert items[..|small|] == items;
  }

  lemma SmallPrefixes(items: seq<Block>, shift: nat)
    requires AllSmall(items, shift)
    ensures forall j :: 0 <= j <= |items| ==> AllSmall(items[..j], shift)
  {
  }

  lemma SmallAt(items: seq<Block>, shift: nat, j: nat)
    requires AllSmall(items, shift) && j < |items|
    ensures items[j].host < shift
  {
  }

  lemma NoneJoined(bins: seq<Bin>, perMonitor: nat, shift: nat)
    requires Pow2(shift) <= perMonitor
    ensures AllSmall([], shift) && JoinAll(bins, [], perMonitor, shift) == bins
  {
  }

  /** The sets built, each in address order: a small CIDR can join the set of a
      large one at a higher address. */
  method SortedSets(packing: Packing) returns (sets: seq<seq<Prefix>>, total: int)
    requires packing.Valid()
    ensures PackedAs(sets, total, packing.bins, packing.limit, packing.family)
  {
    hide Lists, InAddressOrder, Linked, Standing, Hinting, Expand, Frees;
    sets, total := packing.sets, packing.total;
    for i := 0 to |sets|
      invariant |sets| == |packing.sets|
      invariant forall k :: 0 <= k < i ==> SortedSet(sets[k], packing.bins[k], packing.family)
      invariant forall k :: i <= k < |sets| ==> sets[k] == packing.sets[k]
    {
      assert Lists(sets[i], packing.bins[i].items, packing.family);
      SortPrefixesSorts(sets[i]);
      sets := sets[i := SortPrefixes(sets[i])];
    }
  }

  // ----- Packing both families -----

  /** Where the IPv6 ranges start. */
  function FirstV6(ranges: seq<Range>, from: nat): (at: nat)
    requires from <= |ranges|
    ensures from <= at <= |ranges|
    decreases |ranges| - from
  {
    if from == |ranges| || (ranges[from].from.Addr? && ranges[from].from.family.V6?) then from else FirstV6(ranges, from + 1)
  }

  lemma {:induction false} FamiliesSplit(ranges: seq<Range>, from: nat)
    requires Canonical(ranges) && from <= |ranges| && OneFamily(ranges[..from], V4)
    ensures OneFamily(ranges[..FirstV6(ranges, from)], V4) && OneFamily(ranges[FirstV6(ranges, from)..], V6)
    decreases |ranges| - from
  {
    if from >= |ranges| {
    } else {
      var r := ranges[from];
      if r.from.family.V6? {
        forall i | from < i < |ranges|
          ensures ranges[i].from.family.V6?
        {
          assert Place(r.to) + 1 < Place(ranges[i].from);
          PlaceKeepsOrder(r.from, r.to);
        }
      } else {
        FamiliesSplit(ranges, from + 1);
      }
    }
  }

  /** The first sets of both families, IPv4 first, and the number of all of them. */
  ghost predicate PackedBoth(sets: seq<seq<Prefix>>, total: int, v4: seq<Bin>, v6: seq<Bin>, limit: int) {
    && |sets| == (if limit < 0 then 0 else if limit < |v4| + |v6| then limit else |v4| + |v6|)
    && (forall i :: 0 <= i < |sets| && i < |v4| ==> SortedSet(sets[i], v4[i], V4))
    && (forall i :: |v4| <= i < |sets| ==> SortedSet(sets[i], v6[i - |v4|], V6))
    && total == (if |v4| + |v6| > 0x7fff_ffff_ffff_ffff then 0x7fff_ffff_ffff_ffff else |v4| + |v6|)
  }

  /** Packs a space into target sets, as plain first fit packs its canonical form. */
  method Pack(uncovered: seq<Range>, perMonitor: uint64, limit: int)
    returns (sets: seq<seq<Prefix>>, total: int, ghost merged: seq<Range>)
    requires |uncovered| <= MAXINT / 256 && limit <= MAXINT
    ensures perMonitor == 0 ==> sets == [] && total == 0
    ensures Canonical(merged) && Places(merged) == Places(uncovered)
    ensures OneFamily(merged[..FirstV6(merged, 0)], V4) && OneFamily(merged[FirstV6(merged, 0)..], V6)
    ensures perMonitor > 0 ==>
              PackedBoth(sets, total, PlainSets(merged[..FirstV6(merged, 0)], V4, perMonitor),
                         PlainSets(merged[FirstV6(merged, 0)..], V6, perMonitor), limit)
  {
    hide Canonical, Places, PlainSets, SortedSet, OneFamily;
    var all := Merge(uncovered);
    merged := all;
    NoFamily(all, V4);
    FamiliesSplit(all, 0);
    if perMonitor == 0 {
      return [], 0, merged;
    }
    var split := FirstV6(all, 0);
    var total4, sets6, total6;
    sets, total4 := PackFamily(all[..split], perMonitor, limit, V4);
    sets6, total6 := PackFamily(all[split..], perMonitor, limit - |sets|, V6);
    sets := sets + sets6;
    total := AddCapped(total4, total6);
  }

  lemma NoFamily(ranges: seq<Range>, family: Family)
    ensures OneFamily(ranges[..0], family)
  {
  }

  // ----- What the sets hold -----

  /** A partition holds each address of its span once. */
  lemma {:induction false} PartitionHoldsOnce(blocks: seq<Block>, width: nat, from: nat, to: int, a: int)
    requires Partition(blocks, width, from, to)
    ensures Holding(blocks, a) == if from <= a <= to then 1 else 0
  {
    hide Holding;
    if blocks == [] {
      NothingHolds(a);
    } else {
      PartitionHoldsOnce(blocks[1..], width, blocks[0].Last() + 1, to, a);
      assert blocks == [blocks[0]] + blocks[1..];
      HoldingConcat([blocks[0]], blocks[1..], a);
      NothingHolds(a);
      HoldingAppend([], blocks[0], a);
      assert [] + [blocks[0]] == [blocks[0]];
    }
  }

  lemma {:induction false} PartitionCounts(blocks: seq<Block>, width: nat, from: nat, to: int)
    requires Partition(blocks, width, from, to)
    ensures Addresses(blocks) == to - from + 1
  {
    hide Addresses;
    NoAddresses();
    if blocks == [] {
    } else {
      PartitionCounts(blocks[1..], width, blocks[0].Last() + 1, to);
      assert blocks == [blocks[0]] + blocks[1..];
      AddressesConcat([blocks[0]], blocks[1..]);
      AddressesAppend([], blocks[0]);
      assert [] + [blocks[0]] == [blocks[0]];
    }
  }

  lemma {:induction false} AddressesConcat(x: seq<Block>, y: seq<Block>)
    ensures Addresses(x + y) == Addresses(x) + Addresses(y)
  {
    if y == [] {
      assert x + y == x;
    } else {
      var n := |y| - 1;
      AddressesConcat(x, y[..n]);
      assert (x + y)[..|x| + n] == x + y[..n];
    }
  }

  lemma {:induction false} CoverHoldsOnce(r: Range, a: Addr)
    requires r.Valid() && a.Addr? && a.family == r.from.family
    ensures Holding(CoverOf(r), a.value) == if Place(a) in RangePlaces(r) then 1 else 0
    ensures Addresses(CoverOf(r)) == Count(r)
  {
    hide AlignedBlocks.Cover, Holding, Addresses;
    WidthBounds(r.from);
    var width := BitLen(r.from);
    CoverPartitions(width, r.from.value, r.to.value);
    PartitionHoldsOnce(CoverOf(r), width, r.from.value, r.to.value, a.value);
    PartitionCounts(CoverOf(r), width, r.from.value, r.to.value);
  }

  /** The CIDRs of merged ranges hold each address of the space once. */
  lemma {:induction false} CoverAllHoldsOnce(ranges: seq<Range>, family: Family, a: Addr)
    requires OneFamily(ranges, family) && Canonical(ranges) && a.Addr? && a.family == family
    ensures Holding(CoverAll(ranges, family), a.value) == if Place(a) in Places(ranges) then 1 else 0
    ensures Addresses(CoverAll(ranges, family)) == TrueCount(ranges)
  {
    hide Holding, Addresses, CoverOf, RangePlaces, Count;
    NothingHolds(a.value);
    NoAddresses();
    if ranges == [] {
    } else {
      var n := |ranges| - 1;
      CoverAllHoldsOnce(ranges[..n], family, a);
      CoverHoldsOnce(ranges[n], a);
      HoldingConcat(CoverAll(ranges[..n], family), CoverOf(ranges[n]), a.value);
      AddressesConcat(CoverAll(ranges[..n], family), CoverOf(ranges[n]));
      LastIsApart(ranges, n);
    }
  }

  /** Each address of a space of one family is in exactly one CIDR of exactly one
      set, and no other address is in any. */
  lemma FamilyIsPartitioned(ranges: seq<Range>, family: Family, perMonitor: nat, a: Addr)
    requires OneFamily(ranges, family) && Canonical(ranges) && 0 < perMonitor < TWO64 && a.Addr? && a.family == family
    ensures BinsHolding(PlainSets(ranges, family, perMonitor), a.value) == if Place(a) in Places(ranges) then 1 else 0
  {
    hide BinsHolding, Holding, CoverAll, FirstFit.Pack;
    ShiftBounds(perMonitor);
    PackConserves(CoverAll(ranges, family), perMonitor, Shift(perMonitor), a.value);
    CoverAllHoldsOnce(ranges, family, a);
  }

  /** Each address of the whole space is in exactly one set of its family. */
  lemma SpaceIsPartitioned(merged: seq<Range>, perMonitor: nat, a: Addr)
    requires Canonical(merged) && 0 < perMonitor < TWO64 && a.Addr?
    ensures OneFamily(merged[..FirstV6(merged, 0)], V4) && OneFamily(merged[FirstV6(merged, 0)..], V6)
    ensures var split := FirstV6(merged, 0);
            var bins := if a.family.V4? then PlainSets(merged[..split], V4, perMonitor) else PlainSets(merged[split..], V6, perMonitor);
            BinsHolding(bins, a.value) == if Place(a) in Places(merged) then 1 else 0
  {
    hide BinsHolding, PlainSets, Places;
    FamiliesSplit(merged, 0);
    var split := FirstV6(merged, 0);
    PartsHold(merged, split, a);
    if a.family.V4? {
      FamilyIsPartitioned(merged[..split], V4, perMonitor, a);
    } else {
      FamilyIsPartitioned(merged[split..], V6, perMonitor, a);
    }
  }

  lemma {:induction false} PartsHold(merged: seq<Range>, split: nat, a: Addr)
    requires Canonical(merged) && a.Addr? && split <= |merged|
    requires OneFamily(merged[..split], V4) && OneFamily(merged[split..], V6)
    ensures Place(a) in Places(merged) <==> Place(a) in Places(if a.family.V4? then merged[..split] else merged[split..])
  {
    hide Places;
    var part := if a.family.V4? then merged[..split] else merged[split..];
    Held(merged, Place(a));
    Held(part, Place(a));
    if i :| 0 <= i < |merged| && Place(a) in RangePlaces(merged[i]) {
      var j := if a.family.V4? then i else i - split;
      if i < split {
        assert merged[..split][i] == merged[i];
      } else {
        assert merged[split..][i - split] == merged[i];
      }
      PlaceKeepsOrder(merged[i].from, merged[i].to);
      assert part[j] == merged[i];
    }
    if j :| 0 <= j < |part| && Place(a) in RangePlaces(part[j]) {
      assert part[j] == merged[if a.family.V4? then j else j + split];
    }
  }

  /** No set exceeds its size, any two sets hold more than perMonitor addresses, and
      so the number of sets is less than about twice the fewest possible. */
  lemma FamilyIsTight(ranges: seq<Range>, family: Family, perMonitor: nat)
    requires OneFamily(ranges, family) && Canonical(ranges) && 0 < perMonitor < TWO64
    ensures var bins := PlainSets(ranges, family, perMonitor);
            && Packed(bins, perMonitor)
            && PackedAddresses(bins) == TrueCount(ranges)
            && |bins| / 2 * (perMonitor + 1) <= TrueCount(ranges)
  {
    hide Packed, PackedAddresses, CoverAll, FirstFit.Pack, Canonical, OneFamily, TrueCount, BitLength;
    ShiftBounds(perMonitor);
    var blocks := CoverAll(ranges, family);
    PackIsTight(blocks, perMonitor, Shift(perMonitor));
    PackCounts(blocks, perMonitor, Shift(perMonitor));
    CoverAllHoldsOnce(ranges, family, Addr(family, 0));
    PackedSetsAreHalfFull(PlainSets(ranges, family, perMonitor), perMonitor);
  }
}
