/** The plain packing of aligned blocks into sets of a fixed size: each small block
    joins the first of all sets that has room for it. */
module FirstFit {
  import opened Division
  import opened AlignedBlocks

  /** A target set: the capacity it has left, and its blocks in the order they
      joined. */
  datatype Bin = Bin(free: nat, items: seq<Block>)

  /** The first set from an index on that has room, or the number of sets. */
  function Fit(bins: seq<Bin>, size: nat, from: nat): (at: nat)
    requires from <= |bins|
    ensures from <= at <= |bins| && (at < |bins| ==> bins[at].free >= size)
    decreases |bins| - from
  {
    if from == |bins| || bins[from].free >= size then from else Fit(bins, size, from + 1)
  }

  function Join(bins: seq<Bin>, b: Block, perMonitor: nat): (joined: seq<Bin>)
    requires Pow2(b.host) <= perMonitor
    ensures |joined| >= |bins|
  {
    var at := Fit(bins, Pow2(b.host), 0);
    if at < |bins| then bins[at := Bin(bins[at].free - Pow2(b.host), bins[at].items + [b])]
    else bins + [Bin(perMonitor - Pow2(b.host), [b])]
  }

  /** Blocks that are smaller than 2^shift. */
  ghost predicate AllSmall(blocks: seq<Block>, shift: nat) {
    forall i :: 0 <= i < |blocks| ==> blocks[i].host < shift
  }

  function JoinAll(bins: seq<Bin>, blocks: seq<Block>, perMonitor: nat, shift: nat): (joined: seq<Bin>)
    requires AllSmall(blocks, shift) && Pow2(shift) <= perMonitor
    ensures |joined| >= |bins|
  {
    if blocks == [] then bins
    else
      var n := |blocks| - 1;
      Pow2Grows(blocks[n].host, shift);
      Join(JoinAll(bins, blocks[..n], perMonitor, shift), blocks[n], perMonitor)
  }

  /** Blocks of 2^shift addresses, one after another. */
  function Pieces(from: nat, shift: nat, count: nat): (pieces: seq<Block>)
    ensures |pieces| == count
  {
    if count == 0 then [] else Pieces(from, shift, count - 1) + [Block(from + Times(count - 1, Pow2(shift)), shift)]
  }

  /** Each piece opens a set of its own. */
  function Opened(pieces: seq<Block>, free: nat): (bins: seq<Bin>)
    ensures |bins| == |pieces|
  {
    seq(|pieces|, i requires 0 <= i < |pieces| => Bin(free, [pieces[i]]))
  }

  function OpenLarge(blocks: seq<Block>, perMonitor: nat, shift: nat): seq<Bin>
    requires Pow2(shift) <= perMonitor
  {
    if blocks == [] then []
    else
      var n := |blocks| - 1;
      var before := OpenLarge(blocks[..n], perMonitor, shift);
      if blocks[n].host < shift then before
      else before + Opened(Pieces(blocks[n].from, shift, Pow2(blocks[n].host - shift)), perMonitor - Pow2(shift))
  }

  function Small(blocks: seq<Block>, shift: nat): (small: seq<Block>)
    ensures AllSmall(small, shift) && |small| <= |blocks|
  {
    if blocks == [] then []
    else
      var n := |blocks| - 1;
      Small(blocks[..n], shift) + if blocks[n].host < shift then [blocks[n]] else []
  }

  /** The large blocks open their sets first; then the small ones join. */
  function Pack(blocks: seq<Block>, perMonitor: nat, shift: nat): seq<Bin>
    requires Pow2(shift) <= perMonitor
  {
    JoinAll(OpenLarge(blocks, perMonitor, shift), Small(blocks, shift), perMonitor, shift)
  }

  // ----- Conservation -----

  /** How many of the blocks hold an address. */
  function Holding(blocks: seq<Block>, a: int): nat {
    if blocks == [] then 0
    else Holding(blocks[..|blocks| - 1], a) + if blocks[|blocks| - 1].Has(a) then 1 else 0
  }

  function BinsHolding(bins: seq<Bin>, a: int): nat {
    if bins == [] then 0 else BinsHolding(bins[..|bins| - 1], a) + Holding(bins[|bins| - 1].items, a)
  }

  lemma {:induction false} HoldingAppend(blocks: seq<Block>, b: Block, a: int)
    ensures Holding(blocks + [b], a) == Holding(blocks, a) + if b.Has(a) then 1 else 0
  {
    assert (blocks + [b])[..|blocks|] == blocks;
  }

  lemma {:induction false} HoldingConcat(x: seq<Block>, y: seq<Block>, a: int)
    ensures Holding(x + y, a) == Holding(x, a) + Holding(y, a)
  {
    if y == [] {
      assert x + y == x;
    } else {
      var n := |y| - 1;
      HoldingConcat(x, y[..n], a);
      HoldingAppend(x + y[..n], y[n], a);
      assert x + y == x + y[..n] + [y[n]];
    }
  }

  lemma {:induction false} BinsConcat(x: seq<Bin>, y: seq<Bin>, a: int)
    ensures BinsHolding(x + y, a) == BinsHolding(x, a) + BinsHolding(y, a)
  {
    if y == [] {
      assert x + y == x;
    } else {
      var n := |y| - 1;
      BinsConcat(x, y[..n], a);
      assert (x + y)[..|x| + n] == x + y[..n];
    }
  }

  lemma {:induction false} BinsUpdate(bins: seq<Bin>, at: nat, bin: Bin, a: int)
    requires at < |bins|
    ensures BinsHolding(bins[at := bin], a) + Holding(bins[at].items, a) == BinsHolding(bins, a) + Holding(bin.items, a)
  {
    hide Holding;
    var n := |bins| - 1;
    if at < n {
      BinsUpdate(bins[..n], at, bin, a);
      assert bins[at := bin][..n] == bins[..n][at := bin];
    } else {
      assert bins[at := bin][..n] == bins[..n];
    }
  }

  lemma OneBin(bin: Bin, a: int)
    ensures BinsHolding([bin], a) == Holding(bin.items, a)
  {
    assert [bin][..0] == [];
  }

  lemma {:induction false} JoinHolds(bins: seq<Bin>, b: Block, perMonitor: nat, a: int)
    requires Pow2(b.host) <= perMonitor
    ensures BinsHolding(Join(bins, b, perMonitor), a) == BinsHolding(bins, a) + if b.Has(a) then 1 else 0
  {
    var at := Fit(bins, Pow2(b.host), 0);
    if at < |bins| {
      BinsUpdate(bins, at, Bin(bins[at].free - Pow2(b.host), bins[at].items + [b]), a);
      HoldingAppend(bins[at].items, b, a);
    } else {
      var bin := Bin(perMonitor - Pow2(b.host), [b]);
      BinsConcat(bins, [bin], a);
      OneBin(bin, a);
      HoldingAppend([], b, a);
      assert [] + [b] == [b];
    }
  }

  lemma {:induction false} JoinAllHolds(bins: seq<Bin>, blocks: seq<Block>, perMonitor: nat, shift: nat, a: int)
    requires AllSmall(blocks, shift) && Pow2(shift) <= perMonitor
    ensures BinsHolding(JoinAll(bins, blocks, perMonitor, shift), a) == BinsHolding(bins, a) + Holding(blocks, a)
  {
    if blocks == [] {
    } else {
      var n := |blocks| - 1;
      Pow2Grows(blocks[n].host, shift);
      JoinAllHolds(bins, blocks[..n], perMonitor, shift, a);
      JoinHolds(JoinAll(bins, blocks[..n], perMonitor, shift), blocks[n], perMonitor, a);
    }
  }

  /** Pieces hold the addresses of the span they split, each once. */
  lemma {:induction false} PiecesHold(from: nat, shift: nat, count: nat, a: int)
    ensures Holding(Pieces(from, shift, count), a) == if from <= a < from + Times(count, Pow2(shift)) then 1 else 0
  {
    hide Holding, Pow2;
    if count == 0 {
      NothingHolds(a);
    } else {
      PiecesHold(from, shift, count - 1, a);
      HoldingAppend(Pieces(from, shift, count - 1), Block(from + Times(count - 1, Pow2(shift)), shift), a);
    }
  }

  lemma {:induction false} SplitHolds(b: Block, shift: nat, a: int)
    requires shift <= b.host
    ensures Holding(Pieces(b.from, shift, Pow2(b.host - shift)), a) == if b.Has(a) then 1 else 0
  {
    hide Holding, Pieces;
    PiecesHold(b.from, shift, Pow2(b.host - shift), a);
    Pow2Sum(b.host - shift, shift);
    TimesIsProduct(Pow2(b.host - shift), Pow2(shift));
  }

  lemma {:induction false} OpenedHold(pieces: seq<Block>, free: nat, a: int)
    ensures BinsHolding(Opened(pieces, free), a) == Holding(pieces, a)
  {
    if pieces == [] {
    } else {
      var n := |pieces| - 1;
      OpenedHold(pieces[..n], free, a);
      assert Opened(pieces, free)[..n] == Opened(pieces[..n], free);
      HoldingAppend([], pieces[n], a);
      assert [] + [pieces[n]] == [pieces[n]];
    }
  }

  /** One more block opens sets of its own or joins the small ones. */
  lemma {:induction false} LargeOrSmall(blocks: seq<Block>, last: Block, perMonitor: nat, shift: nat)
    requires Pow2(shift) <= perMonitor
    ensures last.host < shift ==>
              && OpenLarge(blocks + [last], perMonitor, shift) == OpenLarge(blocks, perMonitor, shift)
              && Small(blocks + [last], shift) == Small(blocks, shift) + [last]
    ensures last.host >= shift ==>
              && OpenLarge(blocks + [last], perMonitor, shift)
                 == OpenLarge(blocks, perMonitor, shift) + Opened(Pieces(last.from, shift, Pow2(last.host - shift)), perMonitor - Pow2(shift))
              && Small(blocks + [last], shift) == Small(blocks, shift)
  {
    hide Pieces, Opened, Pow2, AllSmall;
    assert (blocks + [last])[..|blocks|] == blocks;
    assert Small(blocks, shift) + [] == Small(blocks, shift);
  }

  lemma {:induction false} LargeAndSmallHold(blocks: seq<Block>, perMonitor: nat, shift: nat, a: int)
    requires Pow2(shift) <= perMonitor
    ensures BinsHolding(OpenLarge(blocks, perMonitor, shift), a) + Holding(Small(blocks, shift), a) == Holding(blocks, a)
  {
    hide Holding, Pieces, Opened, Pow2, AllSmall;
    if blocks == [] {
      NothingHolds(a);
    } else {
      hide OpenLarge, Small;
      var before, last := blocks[..|blocks| - 1], blocks[|blocks| - 1];
      LargeAndSmallHold(before, perMonitor, shift, a);
      HoldingAppend(before, last, a);
      LargeOrSmall(before, last, perMonitor, shift);
      assert before + [last] == blocks;
      if last.host < shift {
        HoldingAppend(Small(before, shift), last, a);
      } else {
        var pieces := Pieces(last.from, shift, Pow2(last.host - shift));
        BinsConcat(OpenLarge(before, perMonitor, shift), Opened(pieces, perMonitor - Pow2(shift)), a);
        OpenedHold(pieces, perMonitor - Pow2(shift), a);
        SplitHolds(last, shift, a);
      }
    }
  }

  lemma NothingHolds(a: int)
    ensures Holding([], a) == 0
  {
  }

  /** Every address is in as many of the packed blocks as in the given ones: packing
      blocks that are apart puts each of their addresses into exactly one set. */
  lemma PackConserves(blocks: seq<Block>, perMonitor: nat, shift: nat, a: int)
    requires Pow2(shift) <= perMonitor
    ensures BinsHolding(Pack(blocks, perMonitor, shift), a) == Holding(blocks, a)
  {
    hide JoinAll, OpenLarge, Small;
    LargeAndSmallHold(blocks, perMonitor, shift, a);
    JoinAllHolds(OpenLarge(blocks, perMonitor, shift), Small(blocks, shift), perMonitor, shift, a);
  }

  // ----- How full the sets are -----

  function Addresses(blocks: seq<Block>): nat {
    if blocks == [] then 0 else Addresses(blocks[..|blocks| - 1]) + Pow2(blocks[|blocks| - 1].host)
  }

  /** Every set holds at most perMonitor addresses, and any two together more. */
  ghost predicate Packed(bins: seq<Bin>, perMonitor: nat) {
    && (forall i :: 0 <= i < |bins| ==> bins[i].free + Addresses(bins[i].items) == perMonitor)
    && (forall i, j :: 0 <= i < j < |bins| ==> bins[i].free + bins[j].free < perMonitor)
  }

  lemma AddressesAppend(blocks: seq<Block>, b: Block)
    ensures Addresses(blocks + [b]) == Addresses(blocks) + Pow2(b.host)
  {
    assert (blocks + [b])[..|blocks|] == blocks;
  }

  lemma {:induction false} FitIsFirst(bins: seq<Bin>, size: nat, from: nat, i: nat)
    requires from <= i < |bins| && i < Fit(bins, size, from)
    ensures bins[i].free < size
    decreases i - from
  {
    if from >= i {
    } else {
      FitIsFirst(bins, size, from + 1, i);
    }
  }

  lemma {:induction false} JoinKeepsPacked(bins: seq<Bin>, b: Block, perMonitor: nat)
    requires Packed(bins, perMonitor) && Pow2(b.host) <= perMonitor
    ensures Packed(Join(bins, b, perMonitor), perMonitor)
  {
    hide Addresses, Fit;
    var size := Pow2(b.host);
    var at := Fit(bins, size, 0);
    if at < |bins| {
      AddressesAppend(bins[at].items, b);
    } else {
      AddressesAppend([], b);
      assert [] + [b] == [b];
      NoAddresses();
      forall i | 0 <= i < |bins|
        ensures bins[i].free < size
      {
        FitIsFirst(bins, size, 0, i);
      }
    }
  }

  lemma NoAddresses()
    ensures Addresses([]) == 0
  {
  }

  lemma {:induction false} JoinAllKeepsPacked(bins: seq<Bin>, blocks: seq<Block>, perMonitor: nat, shift: nat)
    requires AllSmall(blocks, shift) && Pow2(shift) <= perMonitor && Packed(bins, perMonitor)
    ensures Packed(JoinAll(bins, blocks, perMonitor, shift), perMonitor)
  {
    hide Packed;
    if blocks == [] {
    } else {
      var n := |blocks| - 1;
      Pow2Grows(blocks[n].host, shift);
      JoinAllKeepsPacked(bins, blocks[..n], perMonitor, shift);
      JoinKeepsPacked(JoinAll(bins, blocks[..n], perMonitor, shift), blocks[n], perMonitor);
    }
  }

  lemma {:induction false} PiecesAre(from: nat, shift: nat, count: nat)
    ensures forall i :: 0 <= i < count ==> Pieces(from, shift, count)[i] == Block(from + Times(i, Pow2(shift)), shift)
  {
    if count == 0 {
    } else {
      PiecesAre(from, shift, count - 1);
    }
  }

  /** Sets that each hold one piece. */
  ghost predicate Whole(bins: seq<Bin>, perMonitor: nat, size: nat) {
    forall i :: 0 <= i < |bins| ==> bins[i].free + size == perMonitor && Addresses(bins[i].items) == size
  }

  lemma WholeIsPacked(bins: seq<Bin>, perMonitor: nat, size: nat)
    requires Whole(bins, perMonitor, size) && perMonitor < 2 * size
    ensures Packed(bins, perMonitor)
  {
    hide Addresses;
  }

  lemma {:induction false} OpenedIsWhole(pieces: seq<Block>, perMonitor: nat, shift: nat)
    requires Pow2(shift) <= perMonitor
    requires forall i :: 0 <= i < |pieces| ==> pieces[i].host == shift
    ensures Whole(Opened(pieces, perMonitor - Pow2(shift)), perMonitor, Pow2(shift))
  {
    hide Addresses;
    NoAddresses();
    forall i | 0 <= i < |pieces|
      ensures Addresses([pieces[i]]) == Pow2(shift)
    {
      AddressesAppend([], pieces[i]);
      assert [] + [pieces[i]] == [pieces[i]];
    }
  }

  lemma {:induction false} LargeIsWhole(blocks: seq<Block>, perMonitor: nat, shift: nat)
    requires Pow2(shift) <= perMonitor
    ensures Whole(OpenLarge(blocks, perMonitor, shift), perMonitor, Pow2(shift))
  {
    hide Addresses, Pieces, Opened, Pow2;
    if blocks == [] {
    } else {
      var n := |blocks| - 1;
      LargeIsWhole(blocks[..n], perMonitor, shift);
      if blocks[n].host >= shift {
        PiecesAre(blocks[n].from, shift, Pow2(blocks[n].host - shift));
        OpenedIsWhole(Pieces(blocks[n].from, shift, Pow2(blocks[n].host - shift)), perMonitor, shift);
      }
    }
  }

  /** No set exceeds its size, and no two sets could be one. */
  lemma PackIsTight(blocks: seq<Block>, perMonitor: nat, shift: nat)
    requires Pow2(shift) <= perMonitor < 2 * Pow2(shift)
    ensures Packed(Pack(blocks, perMonitor, shift), perMonitor)
  {
    hide Packed, Whole, OpenLarge, Small;
    LargeIsWhole(blocks, perMonitor, shift);
    WholeIsPacked(OpenLarge(blocks, perMonitor, shift), perMonitor, Pow2(shift));
    JoinAllKeepsPacked(OpenLarge(blocks, perMonitor, shift), Small(blocks, shift), perMonitor, shift);
  }

  function PackedAddresses(bins: seq<Bin>): nat {
    if bins == [] then 0 else PackedAddresses(bins[..|bins| - 1]) + Addresses(bins[|bins| - 1].items)
  }

  lemma {:induction false} PackedAppend(bins: seq<Bin>, bin: Bin)
    ensures PackedAddresses(bins + [bin]) == PackedAddresses(bins) + Addresses(bin.items)
  {
    assert (bins + [bin])[..|bins|] == bins;
  }

  lemma {:induction false} PackedUpdate(bins: seq<Bin>, at: nat, bin: Bin)
    requires at < |bins|
    ensures PackedAddresses(bins[at := bin]) + Addresses(bins[at].items) == PackedAddresses(bins) + Addresses(bin.items)
  {
    hide Addresses;
    var n := |bins| - 1;
    if at < n {
      PackedUpdate(bins[..n], at, bin);
      assert bins[at := bin][..n] == bins[..n][at := bin];
    } else {
      assert bins[at := bin][..n] == bins[..n];
    }
  }

  lemma {:induction false} JoinCounts(bins: seq<Bin>, b: Block, perMonitor: nat)
    requires Pow2(b.host) <= perMonitor
    ensures PackedAddresses(Join(bins, b, perMonitor)) == PackedAddresses(bins) + Pow2(b.host)
  {
    hide Addresses, PackedAddresses;
    var at := Fit(bins, Pow2(b.host), 0);
    if at < |bins| {
      PackedUpdate(bins, at, Bin(bins[at].free - Pow2(b.host), bins[at].items + [b]));
      AddressesAppend(bins[at].items, b);
    } else {
      PackedAppend(bins, Bin(perMonitor - Pow2(b.host), [b]));
      AddressesAppend([], b);
      NoAddresses();
      assert [] + [b] == [b];
    }
  }

  lemma {:induction false} JoinAllCounts(bins: seq<Bin>, blocks: seq<Block>, perMonitor: nat, shift: nat)
    requires AllSmall(blocks, shift) && Pow2(shift) <= perMonitor
    ensures PackedAddresses(JoinAll(bins, blocks, perMonitor, shift)) == PackedAddresses(bins) + Addresses(blocks)
  {
    hide PackedAddresses;
    if blocks == [] {
    } else {
      var n := |blocks| - 1;
      Pow2Grows(blocks[n].host, shift);
      JoinAllCounts(bins, blocks[..n], perMonitor, shift);
      JoinCounts(JoinAll(bins, blocks[..n], perMonitor, shift), blocks[n], perMonitor);
    }
  }

  /** Sets of one piece each add up to the pieces. */
  lemma {:induction false} OpenedCount(bins: seq<Bin>, from: nat, shift: nat, count: nat, free: nat)
    ensures PackedAddresses(bins + Opened(Pieces(from, shift, count), free)) == PackedAddresses(bins) + Times(count, Pow2(shift))
  {
    hide Addresses, PackedAddresses, Pow2;
    var longer := Opened(Pieces(from, shift, count), free);
    if count == 0 {
      assert bins + longer == bins;
    } else {
      var last := Block(from + Times(count - 1, Pow2(shift)), shift);
      OpenedCount(bins, from, shift, count - 1, free);
      var front := Opened(Pieces(from, shift, count - 1), free);
      assert bins + longer == bins + front + [Bin(free, [last])];
      PackedAppend(bins + front, Bin(free, [last]));
      AddressesAppend([], last);
      NoAddresses();
      assert [] + [last] == [last];
    }
  }

  lemma {:induction false} LargeAndSmallCount(blocks: seq<Block>, perMonitor: nat, shift: nat)
    requires Pow2(shift) <= perMonitor
    ensures PackedAddresses(OpenLarge(blocks, perMonitor, shift)) + Addresses(Small(blocks, shift)) == Addresses(blocks)
  {
    hide Addresses, Pieces, Opened, Pow2, PackedAddresses, AllSmall;
    if blocks == [] {
      NoAddresses();
      NothingPacked();
    } else {
      hide OpenLarge, Small;
      var before, last := blocks[..|blocks| - 1], blocks[|blocks| - 1];
      LargeAndSmallCount(before, perMonitor, shift);
      AddressesAppend(before, last);
      LargeOrSmall(before, last, perMonitor, shift);
      assert before + [last] == blocks;
      if last.host < shift {
        AddressesAppend(Small(before, shift), last);
      } else {
        OpenedCount(OpenLarge(before, perMonitor, shift), last.from, shift, Pow2(last.host - shift), perMonitor - Pow2(shift));
        Pow2Sum(last.host - shift, shift);
        TimesIsProduct(Pow2(last.host - shift), Pow2(shift));
      }
    }
  }

  lemma NothingPacked()
    ensures PackedAddresses([]) == 0
  {
  }

  /** The sets hold as many addresses as the blocks. */
  lemma PackCounts(blocks: seq<Block>, perMonitor: nat, shift: nat)
    requires Pow2(shift) <= perMonitor
    ensures PackedAddresses(Pack(blocks, perMonitor, shift)) == Addresses(blocks)
  {
    hide JoinAll, OpenLarge, Small, PackedAddresses, Addresses;
    LargeAndSmallCount(blocks, perMonitor, shift);
    JoinAllCounts(OpenLarge(blocks, perMonitor, shift), Small(blocks, shift), perMonitor, shift);
  }

  /** Pairs of sets hold more than perMonitor addresses each, so the number of sets
      is less than about twice the fewest possible. */
  lemma {:induction false} PackedSetsAreHalfFull(bins: seq<Bin>, perMonitor: nat)
    requires Packed(bins, perMonitor)
    ensures |bins| / 2 * (perMonitor + 1) <= PackedAddresses(bins)
  {
    PairsAreFull(bins, |bins| / 2, perMonitor);
    TimesIsProduct(|bins| / 2, perMonitor + 1);
  }

  lemma {:induction false} PairsAreFull(bins: seq<Bin>, pairs: nat, perMonitor: nat)
    requires Packed(bins, perMonitor) && |bins| >= 2 * pairs
    ensures Times(pairs, perMonitor + 1) <= PackedAddresses(bins)
  {
    hide Addresses;
    var n := |bins|;
    if pairs == 0 {
    } else {
      var front := bins[..n - 2];
      assert bins[..n - 1][..n - 2] == front;
      PairsAreFull(front, pairs - 1, perMonitor);
      assert PackedAddresses(bins[..n - 1]) == PackedAddresses(front) + Addresses(bins[n - 2].items);
      assert bins[n - 2].free + bins[n - 1].free < perMonitor;
    }
  }
}
