/** Computing the coalesced plan step by step, no further than its output cap. */
module PerimeterCoalescing {
  import opened FiniteSets
  import opened AlignedBlocks
  import opened AddressRanges
  import opened CidrCover
  import opened FirstFit
  import opened MonitorPacking
  import opened SpacePacking
  import opened PerimeterSearch
  import opened PerimeterBoundary
  import opened PerimeterPlan

  const MAX_ADDRESSES: uint64 := 256
  const MAX_PREFIX_BITS := 24

  /** The range of an IPv4 block. */
  function RangeOf(b: Block): Range
    requires b.Last() <= LAST4
  {
    Range(Addr(V4, b.from), Addr(V4, b.Last()))
  }

  lemma RangeOfIsBlock(b: Block)
    requires b.Last() <= LAST4
    ensures RangeOf(b).Valid() && RangePlaces(RangeOf(b)) == BlockPlaces(b)
  {
  }

  /** What the steps so far lead to, when all of it is kept. */
  ghost function Reached(pieces: seq<Block>, base: seq<Range>, gaps: seq<Range>, perMonitor: nat, maxHost: nat): Draft {
    DraftOf(Candidates(pieces, base, maxHost), gaps, perMonitor)
  }

  class Planner {
    const base: seq<Range>
    const gaps: seq<Range>
    const perMonitor: uint64
    const maxHost: nat
    var seen: set<Block>
    var sets: seq<PlanSet>
    var current: PlanSet
    var currentAddresses: nat
    var tooMany: bool
    /** The pieces taken so far, with the one at which the plan became too long. */
    ghost var pieces: seq<Block>

    ghost predicate Space() {
      PlanSpace(base, gaps) && maxHost <= 8 && Pow2(maxHost) <= perMonitor
    }

    ghost predicate Valid()
      reads this
    {
      && Space() && Placed(pieces, base, maxHost)
      && (if tooMany then |Reached(pieces, base, gaps, perMonitor, maxHost).sets| >= MAX_SUGGESTIONS
          else
            && seen == Among(Candidates(pieces, base, maxHost))
            && Reached(pieces, base, gaps, perMonitor, maxHost) == Draft(sets, current)
            && currentAddresses == Addresses(current.targets)
            && |sets| < MAX_SUGGESTIONS)
    }

    constructor (base: seq<Range>, gaps: seq<Range>, perMonitor: uint64, maxHost: nat)
      requires PlanSpace(base, gaps) && maxHost <= 8 && Pow2(maxHost) <= perMonitor
      ensures Valid() && !tooMany && pieces == []
      ensures this.base == base && this.gaps == gaps && this.perMonitor == perMonitor && this.maxHost == maxHost
    {
      this.base, this.gaps, this.perMonitor, this.maxHost := base, gaps, perMonitor, maxHost;
      seen, sets, current, currentAddresses, tooMany := {}, [], NO_TARGETS, 0, false;
      pieces := [];
    }

    /** Ends the current suggestion. */
    method Flush()
      modifies this`sets, this`current, this`currentAddresses
      ensures sets == old(sets) + (if old(current).targets == [] then [] else [old(current)])
      ensures old(current).targets == [] ==> current == old(current) && currentAddresses == old(currentAddresses)
      ensures old(current).targets != [] ==> current == NO_TARGETS && currentAddresses == 0
    {
      if |current.targets| == 0 {
        return;
      }
      sets := sets + [current];
      current := NO_TARGETS;
      currentAddresses := 0;
    }

    /** Expands a piece as far as the space and the allowed size go. */
    method Expand(piece: Block) returns (candidate: Block)
      requires Space() && Fits(piece, base, maxHost)
      ensures candidate == Grow(piece, base, maxHost) && Fits(candidate, base, maxHost)
    {
      hide Masked, Places, Canonical, OneFamily, RangePlaces;
      candidate := piece;
      while candidate.host < maxHost
        invariant Fits(candidate, base, maxHost)
        invariant Grow(piece, base, maxHost) == Grow(candidate, base, maxHost)
        decreases maxHost - candidate.host
      {
        var parent := Parent(candidate);
        ParentContains(candidate);
        ParentIsIPv4(candidate);
        RangeOfIsBlock(parent);
        var inside := Contains(base, RangeOf(parent));
        if !inside {
          break;
        }
        candidate := parent;
      }
    }

    /** The addresses of a target that are no gap, counted from the gaps that share
        an address with it. */
    method CountCovered(candidate: Block) returns (covered: int)
      requires Space() && Fits(candidate, base, maxHost)
      ensures covered == CoveredIn(candidate, gaps)
    {
      hide Places, Canonical, OneFamily, RangePlaces, TrueCount, BlockPlaces;
      TargetSize(candidate, maxHost);
      var r := RangeOf(candidate);
      RangeOfIsBlock(candidate);
      var addresses: uint64 := Pow2(candidate.host);
      var clipped, _ := Clip(gaps, r);
      var shared := Intersect([r], clipped);
      OneRange(r);
      MergedCount(shared);
      SharedIsSmall(candidate, gaps);
      SameShare(BlockPlaces(candidate), Places(clipped), Places(gaps));
      var gapAddresses, saturated := CountCapped(shared, addresses);
      covered := addresses - gapAddresses;
    }

    /** Makes a block a target, in the next suggestion when the current one has no
        room for it, or finds that the plan is too long. */
    method AddTarget(candidate: Block, covered: int) returns (more: bool)
      requires currentAddresses == Addresses(current.targets) && |sets| < MAX_SUGGESTIONS
      modifies this`seen, this`sets, this`current, this`currentAddresses, this`tooMany
      ensures var next := Fill(Draft(old(sets), old(current)), candidate, covered, perMonitor);
              if more then
                && seen == old(seen) + {candidate} && Draft(sets, current) == next && tooMany == old(tooMany)
                && currentAddresses == Addresses(current.targets) && |sets| < MAX_SUGGESTIONS
              else tooMany && |next.sets| >= MAX_SUGGESTIONS
    {
      hide Addresses, Pow2;
      var addresses := Pow2(candidate.host);
      NextAddresses(current.targets, candidate);
      if |current.targets| > 0 && (currentAddresses + addresses > perMonitor || |current.targets| >= MAX_TARGETS) {
        Flush();
        if |sets| >= MAX_SUGGESTIONS {
          tooMany := true;
          return false;
        }
      }
      seen := seen + {candidate};
      assert [] + [candidate] == [candidate];
      current := PlanSet(current.targets + [candidate], current.alreadyCovered + covered);
      currentAddresses := currentAddresses + addresses;
      return true;
    }

    /** Takes a piece: its expansion becomes a target unless it is one already. */
    method Add(piece: Block) returns (more: bool)
      requires Valid() && !tooMany && Fits(piece, base, maxHost)
      modifies this
      ensures Valid() && pieces == old(pieces) + [piece] && more == !tooMany
    {
      hide Places, Canonical, OneFamily, RangePlaces, Grow, Fits, CoveredIn, Addresses, Pow2, PlanSpace, Fill, Candidates, DraftOf, Placed, Among;
      var candidate := Expand(piece);
      ghost var before := Candidates(pieces, base, maxHost);
      CandidatesNext(pieces, piece, base, maxHost);
      PlacedNext(pieces, piece, base, maxHost);
      AmongNext(before, candidate);
      pieces := pieces + [piece];
      if candidate in seen {
        return true;
      }
      var covered := CountCovered(candidate);
      DraftNext(before, candidate, gaps, perMonitor);
      more := AddTarget(candidate, covered);
    }

    /** Takes the parts of a block of an allowed size, in order, until the plan is
        too long. */
    method Walk(b: Block) returns (more: bool)
      requires Valid() && !tooMany && b.Aligned() && b.Last() <= LAST4 && BlockPlaces(b) <= Places(base)
      modifies this
      ensures Valid() && more == !tooMany
      ensures if more then pieces == old(pieces) + Split(b, maxHost) else pieces <= old(pieces) + Split(b, maxHost)
      decreases b.host
    {
      hide Places, Canonical, OneFamily, RangePlaces, Grow, Pow2, Reached, Candidates, Placed, Among, Split;
      NotSplit(b, maxHost);
      if b.host <= maxHost {
        more := Add(b);
      } else {
        HalvesAreAligned(b);
        var left, right := LeftHalf(b), RightHalf(b);
        HalvesWithin(b, left, right);
        ghost var before := pieces;
        SplitInTwo(b, maxHost);
        assert before + Split(b, maxHost) == before + Split(left, maxHost) + Split(right, maxHost);
        more := Walk(left);
        if more {
          more := Walk(right);
        }
      }
    }
  }

  lemma SameShare(b: set<int>, clipped: set<int>, all: set<int>)
    requires clipped * b == all * b
    ensures b * clipped == b * all
  {
    assert b * clipped == clipped * b && b * all == all * b;
  }

  ghost function Among(blocks: seq<Block>): set<Block> {
    set b | b in blocks
  }

  lemma AmongNext(blocks: seq<Block>, b: Block)
    ensures Among(blocks + [b]) == Among(blocks) + {b} && (b in Among(blocks) <==> b in blocks)
  {
  }

  lemma TargetSize(b: Block, maxHost: nat)
    requires b.host <= maxHost <= 8
    ensures Pow2(b.host) <= 256
  {
    Pow2Grows(b.host, 8);
    Pow2Values();
  }

  lemma SharedIsSmall(b: Block, gaps: seq<Range>)
    ensures |BlockPlaces(b) * Places(gaps)| <= Pow2(b.host)
  {
    hide Places;
    SpanSize(b.from, b.Last());
    SubsetIsSmaller(BlockPlaces(b) * Places(gaps), BlockPlaces(b));
  }

  lemma CandidatesNext(pieces: seq<Block>, piece: Block, base: seq<Range>, maxHost: nat)
    ensures var before, c := Candidates(pieces, base, maxHost), Grow(piece, base, maxHost);
            Candidates(pieces + [piece], base, maxHost) == if c in before then before else before + [c]
  {
    assert (pieces + [piece])[..|pieces|] == pieces;
  }

  lemma PlacedNext(pieces: seq<Block>, piece: Block, base: seq<Range>, maxHost: nat)
    requires Placed(pieces, base, maxHost) && Fits(piece, base, maxHost)
    ensures Placed(pieces + [piece], base, maxHost)
  {
    hide Fits;
  }

  lemma DraftNext(targets: seq<Block>, c: Block, gaps: seq<Range>, perMonitor: nat)
    ensures DraftOf(targets + [c], gaps, perMonitor) == Fill(DraftOf(targets, gaps, perMonitor), c, CoveredIn(c, gaps), perMonitor)
  {
    assert (targets + [c])[..|targets|] == targets;
  }

  lemma NextAddresses(targets: seq<Block>, c: Block)
    ensures Addresses(targets + [c]) == Addresses(targets) + Pow2(c.host)
    ensures Addresses([]) == 0 && Addresses([c]) == Pow2(c.host)
  {
    AddressesAppend(targets, c);
    AddressesAppend([], c);
    NoAddresses();
    assert [] + [c] == [c];
  }

  lemma NotSplit(b: Block, maxHost: nat)
    ensures b.host <= maxHost ==> Split(b, maxHost) == [b]
  {
  }

  lemma SplitInTwo(b: Block, maxHost: nat)
    requires b.host > maxHost
    ensures Split(b, maxHost) == Split(LeftHalf(b), maxHost) + Split(RightHalf(b), maxHost)
  {
    hide LeftHalf, RightHalf;
  }

  lemma HalvesWithin(b: Block, left: Block, right: Block)
    requires left.from == b.from && left.Last() + 1 == right.from && right.Last() == b.Last()
    ensures BlockPlaces(left) <= BlockPlaces(b) && BlockPlaces(right) <= BlockPlaces(b)
    ensures left.Last() <= b.Last()
  {
  }

  // ----- The plan within its output cap -----

  /** The host bits of the largest target that a set size allows. */
  function MaxHost(perMonitor: uint64): int {
    Shift(if perMonitor < MAX_ADDRESSES then perMonitor else MAX_ADDRESSES)
  }

  lemma MaxHostBounds(perMonitor: uint64)
    requires perMonitor > 0
    ensures 0 <= MaxHost(perMonitor) <= 8 && Pow2(MaxHost(perMonitor)) <= perMonitor
    ensures MaxHost(perMonitor) == 8 || perMonitor < 2 * Pow2(MaxHost(perMonitor))
  {
    hide Pow2;
    var size := if perMonitor < MAX_ADDRESSES then perMonitor else MAX_ADDRESSES;
    ShiftBounds(size);
    Pow2Values();
    if MaxHost(perMonitor) > 8 {
      Pow2Grows(8, MaxHost(perMonitor));
    }
  }

  /** What a too long plan leads to however much follows. */
  lemma {:induction false} StaysTooLong(some: seq<Block>, all: seq<Block>, base: seq<Range>, gaps: seq<Range>, perMonitor: nat, maxHost: nat)
    requires some <= all && Placed(all, base, maxHost)
    requires |Reached(some, base, gaps, perMonitor, maxHost).sets| >= MAX_SUGGESTIONS
    requires AllFit(Candidates(all, base, maxHost), perMonitor)
    ensures |Sets(Reached(all, base, gaps, perMonitor, maxHost))| > MAX_SUGGESTIONS
  {
    hide Candidates, DraftOf, Placed;
    assert all[..|some|] == some;
    CandidatesGrow(all, |some|, base, maxHost);
    var fewer, targets := Candidates(some, base, maxHost), Candidates(all, base, maxHost);
    assert targets[..|fewer|] == fewer;
    DraftGrows(targets, |fewer|, gaps, perMonitor);
    DraftIsBounded(targets, gaps, perMonitor);
    NoDraft(targets, gaps, perMonitor);
  }

  lemma NoDraft(targets: seq<Block>, gaps: seq<Range>, perMonitor: nat)
    ensures targets == [] ==> DraftOf(targets, gaps, perMonitor).sets == []
  {
  }

  lemma NoneTaken(base: seq<Range>, maxHost: nat)
    ensures PiecesOf([], maxHost) == []
  {
  }

  lemma PiecesNext(gaps: seq<Range>, i: nat, maxHost: nat)
    requires AllValid(gaps) && i < |gaps|
    ensures AllValid(gaps[..i]) && AllValid(gaps[..i + 1])
    ensures PiecesOf(gaps[..i + 1], maxHost) == PiecesOf(gaps[..i], maxHost) + SplitAll(CoverOf(gaps[i]), maxHost)
  {
    assert gaps[..i + 1][..i] == gaps[..i];
  }

  lemma SplitNext(blocks: seq<Block>, k: nat, maxHost: nat)
    requires k < |blocks|
    ensures SplitAll(blocks[..k + 1], maxHost) == SplitAll(blocks[..k], maxHost) + Split(blocks[k], maxHost)
    ensures SplitAll(blocks[..k + 1], maxHost) <= SplitAll(blocks, maxHost)
  {
    assert blocks[..k + 1][..k] == blocks[..k];
    SplitGrows(blocks, k + 1, maxHost);
  }

  lemma {:induction false} SplitGrows(blocks: seq<Block>, n: nat, maxHost: nat)
    requires n <= |blocks|
    ensures SplitAll(blocks[..n], maxHost) <= SplitAll(blocks, maxHost)
    decreases |blocks| - n
  {
    hide Split;
    if n == |blocks| {
      assert blocks[..n] == blocks;
    } else {
      SplitGrows(blocks, n + 1, maxHost);
      assert blocks[..n + 1][..n] == blocks[..n];
    }
  }

  lemma {:induction false} PiecesGrow(gaps: seq<Range>, n: nat, maxHost: nat)
    requires AllValid(gaps) && n <= |gaps|
    ensures AllValid(gaps[..n]) && PiecesOf(gaps[..n], maxHost) <= PiecesOf(gaps, maxHost)
    decreases |gaps| - n
  {
    hide SplitAll, CoverOf;
    if n == |gaps| {
      assert gaps[..n] == gaps;
    } else {
      PiecesGrow(gaps, n + 1, maxHost);
      PiecesNext(gaps, n, maxHost);
    }
  }

  /** Takes the blocks of a gap. */
  method WalkGap(planner: Planner, gap: Range)
    requires planner.Valid() && !planner.tooMany
    requires gap.Valid() && gap.from.family.V4? && RangePlaces(gap) <= Places(planner.base)
    modifies planner
    ensures planner.Valid()
    ensures if planner.tooMany then planner.pieces <= old(planner.pieces) + SplitAll(CoverOf(gap), planner.maxHost)
            else planner.pieces == old(planner.pieces) + SplitAll(CoverOf(gap), planner.maxHost)
  {
    hide Places, Planner.Valid, CoverOf, AlignedBlocks.Cover, Split, OfFamily, Blocks, Lists, RangePlaces, Pow2;
    var prefixes := CidrCover.Cover(gap);
    ghost var blocks := CoverOf(gap);
    CoverLists(gap, prefixes);
    ListsLength(prefixes, blocks, V4);
    CoverOfHolds(gap);
    ghost var before := planner.pieces;
    assert blocks[..0] == [] && before + [] == before;
    for k := 0 to |prefixes|
      invariant planner.Valid() && !planner.tooMany
      invariant planner.pieces == before + SplitAll(blocks[..k], planner.maxHost)
    {
      ListsAt(prefixes, blocks, V4, k);
      SplitNext(blocks, k, planner.maxHost);
      BlockInRange(gap, blocks[k], planner.base);
      var more := planner.Walk(BlockOf(prefixes[k]));
      if !more {
        return;
      }
    }
    assert blocks[..|prefixes|] == blocks;
  }

  lemma BlockInRange(r: Range, b: Block, base: seq<Range>)
    requires r.Valid() && r.from.family.V4? && RangePlaces(r) <= Places(base)
    requires r.from.value <= b.from && b.Last() <= r.to.value
    ensures b.Last() <= LAST4 && BlockPlaces(b) <= Places(base)
  {
    hide Places;
  }

  /** The coalesced plan: the complete plan when it has at most 16 suggestions, and
      otherwise none but the note that it needs at least 17. There is no plan when no
      target could include a covered address. */
  method CoalescedSuggestionSets(base: seq<Range>, gaps: seq<Range>, perMonitor: uint64)
    returns (sets: seq<PlanSet>, total: int, truncated: bool)
    requires PlanSpace(base, gaps)
    ensures gaps == [] || perMonitor == 0 ==> sets == [] && total == 0 && !truncated
    ensures gaps != [] && perMonitor > 0 ==>
              0 <= MaxHost(perMonitor) <= 8
              && Pow2(MaxHost(perMonitor)) <= perMonitor && (MaxHost(perMonitor) == 8 || perMonitor < 2 * Pow2(MaxHost(perMonitor)))
              && if !CanInclude(base, gaps, MaxHost(perMonitor)) then sets == [] && total == 0 && !truncated
                 else
                   var plan := CompletePlan(base, gaps, perMonitor, MaxHost(perMonitor));
                   if |plan| > 16 then sets == [] && total == 17 && truncated
                   else sets == plan && total == |plan| && !truncated
  {
    hide Places, Planner.Valid, CoverOf, SplitAll, PiecesOf, Canonical, RangePlaces, CanInclude, Shift, Pow2, Candidates;
    if |gaps| == 0 || perMonitor == 0 {
      return [], 0, false;
    }
    MaxHostBounds(perMonitor);
    var maxAddresses := if perMonitor < MAX_ADDRESSES then perMonitor else MAX_ADDRESSES;
    var minPrefixBits := if MAX_PREFIX_BITS > 32 - Shift(maxAddresses) then MAX_PREFIX_BITS else 32 - Shift(maxAddresses);
    var maxHost := 32 - minPrefixBits;
    var can := CanIncludeCovered(base, gaps, minPrefixBits);
    if !can {
      return [], 0, false;
    }
    var planner := new Planner(base, gaps, perMonitor, maxHost);
    NoneTaken(base, maxHost);
    assert gaps[..0] == [];
    for i := 0 to |gaps|
      invariant planner.Valid() && !planner.tooMany
      invariant planner.pieces == PiecesOf(gaps[..i], maxHost)
    {
      PiecesNext(gaps, i, maxHost);
      PiecesGrow(gaps, i + 1, maxHost);
      Within(gaps, i);
      WalkGap(planner, gaps[i]);
      if planner.tooMany {
        TooLong(planner);
        return [], MAX_SUGGESTIONS + 1, true;
      }
    }
    assert gaps[..|gaps|] == gaps;
    PlanReached(planner);
    planner.Flush();
    sets := planner.sets;
    total := |sets|;
    truncated := false;
  }

  lemma TooLong(planner: Planner)
    requires planner.Valid() && planner.tooMany && planner.pieces <= PiecesOf(planner.gaps, planner.maxHost)
    ensures |CompletePlan(planner.base, planner.gaps, planner.perMonitor, planner.maxHost)| > MAX_SUGGESTIONS
  {
    hide Places, PiecesOf, Canonical, Candidates, Placed, AllFit;
    PiecesArePlaced(planner.base, planner.gaps, planner.maxHost);
    TargetsFit(planner.base, planner.gaps, planner.maxHost, planner.perMonitor);
    StaysTooLong(planner.pieces, PiecesOf(planner.gaps, planner.maxHost), planner.base, planner.gaps, planner.perMonitor, planner.maxHost);
  }

  lemma PlanReached(planner: Planner)
    requires planner.Valid() && !planner.tooMany && planner.pieces == PiecesOf(planner.gaps, planner.maxHost)
    ensures CompletePlan(planner.base, planner.gaps, planner.perMonitor, planner.maxHost) == Sets(Draft(planner.sets, planner.current))
    ensures |planner.sets| < MAX_SUGGESTIONS
  {
    hide Places, PiecesOf, Canonical, Candidates, Placed;
  }
}
