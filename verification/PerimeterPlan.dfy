/** The complete coalesced plan: gaps expanded to the largest allowed blocks, in
    suggestions of bounded size. */
module PerimeterPlan {
  import opened AlignedBlocks
  import opened AddressRanges
  import opened CidrCover
  import opened FirstFit
  import opened SpacePacking
  import opened PerimeterBoundary

  // ----- Expanding a piece -----

  /** The block of twice the size around a block. */
  function Parent(b: Block): Block {
    Block(Masked(b.from, b.host + 1), b.host + 1)
  }

  ghost function Grow(b: Block, base: seq<Range>, maxHost: nat): Block
    decreases maxHost - b.host
  {
    if b.host < maxHost && BlockPlaces(Parent(b)) <= Places(base) then Grow(Parent(b), base, maxHost) else b
  }

  lemma {:induction false} ParentContains(b: Block)
    requires b.Aligned()
    ensures Parent(b).Aligned() && Parent(b).Contains(b)
  {
    hide Masked, WithHostBits;
    MaskedIsAligned(b.from, b.host + 1);
    NetworkIsInterval(b.from, b.from, b.host + 1);
    MaskedLast(b.from, b.host + 1);
    NestedOrApart(b, Parent(b));
  }

  lemma {:induction false} ParentIsIPv4(b: Block)
    requires b.Aligned() && b.Last() <= LAST4 && b.host < 32
    ensures Parent(b).Last() <= LAST4
  {
    hide Masked, WithHostBits;
    Pow2Values();
    MaskedLast(b.from, b.host + 1);
    WithHostBitsBound(b.from, b.host + 1, 32);
  }

  /** Growing leads to an allowed block around the piece. */
  lemma {:induction false} GrowFits(b: Block, base: seq<Range>, maxHost: nat)
    requires Fits(b, base, maxHost) && maxHost <= 32
    ensures Fits(Grow(b, base, maxHost), base, maxHost) && Grow(b, base, maxHost).Contains(b)
    decreases maxHost - b.host
  {
    hide Masked, Places;
    if b.host < maxHost && BlockPlaces(Parent(b)) <= Places(base) {
      ParentContains(b);
      ParentIsIPv4(b);
      GrowFits(Parent(b), base, maxHost);
    }
  }

  /** It is the largest such block: every allowed block that shares an address with
      the piece is within it. */
  lemma {:induction false} GrowIsMaximal(b: Block, base: seq<Range>, maxHost: nat, c: Block, a: int)
    requires Fits(b, base, maxHost) && maxHost <= 32 && Fits(c, base, maxHost) && b.Has(a) && c.Has(a)
    ensures Grow(b, base, maxHost).Contains(c)
    decreases maxHost - b.host
  {
    hide Masked, Places;
    GrowFits(b, base, maxHost);
    if c.host <= b.host {
      NestedOrApart(c, b);
    } else {
      ParentContains(b);
      ParentIsIPv4(b);
      NestedOrApart(Parent(b), c);
      assert BlockPlaces(Parent(b)) <= BlockPlaces(c);
      GrowIsMaximal(Parent(b), base, maxHost, c, a);
    }
  }

  // ----- The pieces of the gaps -----

  function LeftHalf(b: Block): Block
    requires b.host > 0
  {
    Block(b.from, b.host - 1)
  }

  function RightHalf(b: Block): Block
    requires b.host > 0
  {
    Block(b.from + Pow2(b.host - 1), b.host - 1)
  }

  /** Halves a block until its parts have an allowed size. */
  function Split(b: Block, maxHost: nat): seq<Block>
    decreases b.host
  {
    if b.host <= maxHost then [b] else Split(LeftHalf(b), maxHost) + Split(RightHalf(b), maxHost)
  }

  function SplitAll(blocks: seq<Block>, maxHost: nat): seq<Block> {
    if blocks == [] then [] else SplitAll(blocks[..|blocks| - 1], maxHost) + Split(blocks[|blocks| - 1], maxHost)
  }

  ghost function PiecesOf(gaps: seq<Range>, maxHost: nat): seq<Block>
    requires AllValid(gaps)
  {
    if gaps == [] then []
    else PiecesOf(gaps[..|gaps| - 1], maxHost) + SplitAll(CoverOf(gaps[|gaps| - 1]), maxHost)
  }

  lemma {:induction false} HalvesAreAligned(b: Block)
    requires b.Aligned() && b.host > 0
    ensures var left, right := LeftHalf(b), RightHalf(b);
            && left.Aligned() && right.Aligned() && left.Last() + 1 == right.from && right.Last() == b.Last()
  {
    AlignedOnLess(b.from, b.host, b.host - 1);
    AlignedEnd(b.from, b.host - 1);
  }

  /** Parts are aligned, of an allowed size and within the block. */
  lemma {:induction false} SplitIsWithin(b: Block, maxHost: nat, i: nat)
    requires b.Aligned() && i < |Split(b, maxHost)|
    ensures var part := Split(b, maxHost)[i];
            part.Aligned() && part.host <= maxHost && b.Contains(part)
    decreases b.host
  {
    if b.host <= maxHost {
    } else {
      HalvesAreAligned(b);
      var left, right := LeftHalf(b), RightHalf(b);
      var n := |Split(left, maxHost)|;
      if i < n {
        SplitIsWithin(left, maxHost, i);
      } else {
        SplitIsWithin(right, maxHost, i - n);
      }
    }
  }

  /** Parts hold every address of the block. */
  lemma {:induction false} SplitHolds(b: Block, maxHost: nat, a: int) returns (i: nat)
    requires b.Aligned() && b.Has(a)
    ensures i < |Split(b, maxHost)| && Split(b, maxHost)[i].Has(a)
    decreases b.host
  {
    hide Pow2, Block.Aligned;
    if b.host <= maxHost {
      i := 0;
    } else {
      HalvesAreAligned(b);
      var left, right := LeftHalf(b), RightHalf(b);
      if left.Has(a) {
        i := SplitHolds(left, maxHost, a);
      } else {
        i := SplitHolds(right, maxHost, a);
        i := |Split(left, maxHost)| + i;
      }
    }
  }

  ghost predicate AllAligned(blocks: seq<Block>) {
    forall i :: 0 <= i < |blocks| ==> blocks[i].Aligned()
  }

  lemma {:induction false} SplitAllIsWithin(blocks: seq<Block>, maxHost: nat, i: nat) returns (k: nat)
    requires AllAligned(blocks) && i < |SplitAll(blocks, maxHost)|
    ensures k < |blocks|
    ensures var part := SplitAll(blocks, maxHost)[i];
            part.Aligned() && part.host <= maxHost && blocks[k].Contains(part)
  {
    hide Split;
    var m := |blocks| - 1;
    var n := |SplitAll(blocks[..m], maxHost)|;
    if i < n {
      k := SplitAllIsWithin(blocks[..m], maxHost, i);
    } else {
      k := m;
      SplitIsWithin(blocks[m], maxHost, i - n);
    }
  }

  lemma {:induction false} SplitAllHolds(blocks: seq<Block>, maxHost: nat, k: nat, a: int) returns (i: nat)
    requires AllAligned(blocks) && k < |blocks| && blocks[k].Has(a)
    ensures i < |SplitAll(blocks, maxHost)| && SplitAll(blocks, maxHost)[i].Has(a)
  {
    hide Split;
    var m := |blocks| - 1;
    if k < m {
      i := SplitAllHolds(blocks[..m], maxHost, k, a);
    } else {
      i := SplitHolds(blocks[m], maxHost, a);
      i := |SplitAll(blocks[..m], maxHost)| + i;
    }
  }

  lemma {:induction false} CoverOfHolds(r: Range)
    requires r.Valid()
    ensures AllAligned(CoverOf(r))
    ensures forall i :: 0 <= i < |CoverOf(r)| ==> r.from.value <= CoverOf(r)[i].from && CoverOf(r)[i].Last() <= r.to.value
    ensures forall a :: r.from.value <= a <= r.to.value ==> SomeHas(CoverOf(r), a)
  {
    hide AlignedBlocks.Cover, Pow2;
    WidthBounds(r.from);
    CoverPartitions(BitLen(r.from), r.from.value, r.to.value);
    PartitionHolds(AlignedBlocks.Cover(BitLen(r.from), r.from.value, r.to.value), BitLen(r.from), r.from.value, r.to.value);
  }

  /** A piece is an aligned block of an allowed size that holds gap addresses only. */
  lemma {:induction false} PieceIsGap(gaps: seq<Range>, maxHost: nat, i: nat)
    requires OneFamily(gaps, V4) && i < |PiecesOf(gaps, maxHost)|
    ensures var piece := PiecesOf(gaps, maxHost)[i];
            piece.Aligned() && piece.host <= maxHost && piece.Last() <= LAST4 && BlockPlaces(piece) <= Places(gaps)
  {
    hide CoverOf, SplitAll, Places;
    var m := |gaps| - 1;
    var n := |PiecesOf(gaps[..m], maxHost)|;
    PlacesPrefix(gaps, m);
    assert gaps[..m + 1] == gaps;
    if i < n {
      PieceIsGap(gaps[..m], maxHost, i);
    } else {
      CoverOfHolds(gaps[m]);
      var k := SplitAllIsWithin(CoverOf(gaps[m]), maxHost, i - n);
      assert BlockPlaces(SplitAll(CoverOf(gaps[m]), maxHost)[i - n]) <= RangePlaces(gaps[m]);
    }
  }

  /** Every gap address is in a piece. */
  lemma {:induction false} GapIsInPiece(gaps: seq<Range>, maxHost: nat, a: int) returns (i: nat)
    requires OneFamily(gaps, V4) && a in Places(gaps)
    ensures i < |PiecesOf(gaps, maxHost)| && PiecesOf(gaps, maxHost)[i].Has(a)
  {
    hide CoverOf, SplitAll;
    var m := |gaps| - 1;
    if a in Places(gaps[..m]) {
      i := GapIsInPiece(gaps[..m], maxHost, a);
    } else {
      CoverOfHolds(gaps[m]);
      assert SomeHas(CoverOf(gaps[m]), a);
      var k :| 0 <= k < |CoverOf(gaps[m])| && CoverOf(gaps[m])[k].Has(a);
      i := SplitAllHolds(CoverOf(gaps[m]), maxHost, k, a);
      i := |PiecesOf(gaps[..m], maxHost)| + i;
    }
  }

  // ----- The targets -----

  /** The expanded pieces, each once. */
  ghost function Candidates(pieces: seq<Block>, base: seq<Range>, maxHost: nat): seq<Block> {
    if pieces == [] then []
    else
      var before := Candidates(pieces[..|pieces| - 1], base, maxHost);
      var c := Grow(pieces[|pieces| - 1], base, maxHost);
      if c in before then before else before + [c]
  }

  lemma {:induction false} CandidateIsGrown(pieces: seq<Block>, base: seq<Range>, maxHost: nat, k: nat) returns (i: nat)
    requires k < |Candidates(pieces, base, maxHost)|
    ensures i < |pieces| && Candidates(pieces, base, maxHost)[k] == Grow(pieces[i], base, maxHost)
  {
    hide Grow;
    var m := |pieces| - 1;
    if k < |Candidates(pieces[..m], base, maxHost)| {
      i := CandidateIsGrown(pieces[..m], base, maxHost, k);
    } else {
      i := m;
    }
  }

  lemma {:induction false} GrownIsCandidate(pieces: seq<Block>, base: seq<Range>, maxHost: nat, i: nat) returns (k: nat)
    requires i < |pieces|
    ensures k < |Candidates(pieces, base, maxHost)| && Candidates(pieces, base, maxHost)[k] == Grow(pieces[i], base, maxHost)
  {
    hide Grow;
    var m := |pieces| - 1;
    if i < m {
      k := GrownIsCandidate(pieces[..m], base, maxHost, i);
    } else {
      var c := Grow(pieces[m], base, maxHost);
      assert c in Candidates(pieces, base, maxHost);
      k :| 0 <= k < |Candidates(pieces, base, maxHost)| && Candidates(pieces, base, maxHost)[k] == c;
    }
  }

  lemma {:induction false} CandidatesDiffer(pieces: seq<Block>, base: seq<Range>, maxHost: nat)
    ensures forall i, j :: 0 <= i < j < |Candidates(pieces, base, maxHost)| ==>
              Candidates(pieces, base, maxHost)[i] != Candidates(pieces, base, maxHost)[j]
  {
    hide Grow;
    if pieces == [] {
    } else {
      CandidatesDiffer(pieces[..|pieces| - 1], base, maxHost);
    }
  }

  /** The pieces lie in the scannable space. */
  ghost predicate Placed(pieces: seq<Block>, base: seq<Range>, maxHost: nat) {
    forall i :: 0 <= i < |pieces| ==> Fits(pieces[i], base, maxHost)
  }

  /** Targets share no address: each is the largest allowed block around a piece. */
  lemma {:induction false} CandidatesApart(pieces: seq<Block>, base: seq<Range>, maxHost: nat, i: nat, j: nat, a: int)
    requires Placed(pieces, base, maxHost) && maxHost <= 32
    requires i < |Candidates(pieces, base, maxHost)| && j < |Candidates(pieces, base, maxHost)|
    requires Candidates(pieces, base, maxHost)[i].Has(a) && Candidates(pieces, base, maxHost)[j].Has(a)
    ensures i == j
  {
    hide Grow, Candidates, Fits;
    var p := CandidateIsGrown(pieces, base, maxHost, i);
    var q := CandidateIsGrown(pieces, base, maxHost, j);
    var x, y := Grow(pieces[p], base, maxHost), Grow(pieces[q], base, maxHost);
    GrowFits(pieces[p], base, maxHost);
    GrowFits(pieces[q], base, maxHost);
    NestedGrown(pieces[p], x, pieces[q], y, base, maxHost, a);
    CandidatesDiffer(pieces, base, maxHost);
  }

  lemma {:induction false} NestedGrown(p: Block, x: Block, q: Block, y: Block, base: seq<Range>, maxHost: nat, a: int)
    requires Fits(p, base, maxHost) && Fits(q, base, maxHost) && maxHost <= 32
    requires x == Grow(p, base, maxHost) && y == Grow(q, base, maxHost)
    requires Fits(x, base, maxHost) && Fits(y, base, maxHost) && x.Contains(p) && y.Contains(q) && x.Has(a) && y.Has(a)
    ensures x == y
  {
    hide Grow, Places;
    if x.host <= y.host {
      NestedOrApart(x, y);
      GrowIsMaximal(p, base, maxHost, y, p.from);
    } else {
      NestedOrApart(y, x);
      GrowIsMaximal(q, base, maxHost, x, q.from);
    }
    SameSpan(x, y);
  }

  lemma SameSpan(x: Block, y: Block)
    requires x.Contains(y) && y.Contains(x)
    ensures x == y
  {
    if x.host < y.host {
      Pow2Grows(x.host, y.host);
    } else if y.host < x.host {
      Pow2Grows(y.host, x.host);
    }
  }

  // ----- The order of the targets -----

  ghost predicate Ascending(blocks: seq<Block>) {
    forall i, j :: 0 <= i < j < |blocks| ==> blocks[i].Last() < blocks[j].from
  }

  lemma {:induction false} AscendingConcat(a: seq<Block>, b: seq<Block>)
    requires Ascending(a) && Ascending(b)
    requires forall i, j :: 0 <= i < |a| && 0 <= j < |b| ==> a[i].Last() < b[j].from
    ensures Ascending(a + b)
  {
    hide Block.Last;
    forall i, j | 0 <= i < j < |a + b|
      ensures (a + b)[i].Last() < (a + b)[j].from
    {
      if i < |a| <= j {
        assert a[i].Last() < b[j - |a|].from;
      }
    }
  }

  lemma {:induction false} SplitAscends(b: Block, maxHost: nat)
    requires b.Aligned()
    ensures Ascending(Split(b, maxHost))
    decreases b.host
  {
    hide Pow2, Block.Aligned;
    if b.host <= maxHost {
    } else {
      HalvesAreAligned(b);
      var left, right := LeftHalf(b), RightHalf(b);
      SplitAscends(left, maxHost);
      SplitAscends(right, maxHost);
      forall i, j | 0 <= i < |Split(left, maxHost)| && 0 <= j < |Split(right, maxHost)|
        ensures Split(left, maxHost)[i].Last() < Split(right, maxHost)[j].from
      {
        SplitIsWithin(left, maxHost, i);
        SplitIsWithin(right, maxHost, j);
      }
      AscendingConcat(Split(left, maxHost), Split(right, maxHost));
    }
  }

  lemma {:induction false} SplitAllAscends(blocks: seq<Block>, maxHost: nat)
    requires AllAligned(blocks) && Ascending(blocks)
    ensures Ascending(SplitAll(blocks, maxHost))
  {
    hide Split, Pow2, Block.Aligned;
    if blocks == [] {
    } else {
      var m := |blocks| - 1;
      SplitAllAscends(blocks[..m], maxHost);
      SplitAscends(blocks[m], maxHost);
      forall i, j | 0 <= i < |SplitAll(blocks[..m], maxHost)| && 0 <= j < |Split(blocks[m], maxHost)|
        ensures SplitAll(blocks[..m], maxHost)[i].Last() < Split(blocks[m], maxHost)[j].from
      {
        var k := SplitAllIsWithin(blocks[..m], maxHost, i);
        SplitIsWithin(blocks[m], maxHost, j);
        assert blocks[k].Last() < blocks[m].from;
      }
      AscendingConcat(SplitAll(blocks[..m], maxHost), Split(blocks[m], maxHost));
    }
  }

  lemma {:induction false} CoverAscends(r: Range)
    requires r.Valid()
    ensures Ascending(CoverOf(r))
  {
    hide AlignedBlocks.Cover, Pow2;
    WidthBounds(r.from);
    CoverPartitions(BitLen(r.from), r.from.value, r.to.value);
    PartitionHolds(AlignedBlocks.Cover(BitLen(r.from), r.from.value, r.to.value), BitLen(r.from), r.from.value, r.to.value);
  }

  /** A piece lies in one of the gaps. */
  lemma {:induction false} PieceInGap(gaps: seq<Range>, maxHost: nat, i: nat) returns (k: nat)
    requires OneFamily(gaps, V4) && i < |PiecesOf(gaps, maxHost)|
    ensures k < |gaps| && gaps[k].from.value <= PiecesOf(gaps, maxHost)[i].from && PiecesOf(gaps, maxHost)[i].Last() <= gaps[k].to.value
  {
    hide CoverOf, SplitAll, Pow2;
    var m := |gaps| - 1;
    var n := |PiecesOf(gaps[..m], maxHost)|;
    if i < n {
      k := PieceInGap(gaps[..m], maxHost, i);
    } else {
      CoverOfHolds(gaps[m]);
      var b := SplitAllIsWithin(CoverOf(gaps[m]), maxHost, i - n);
      k := m;
    }
  }

  lemma {:induction false} PiecesAscend(gaps: seq<Range>, maxHost: nat)
    requires Canonical(gaps) && OneFamily(gaps, V4)
    ensures Ascending(PiecesOf(gaps, maxHost))
  {
    hide CoverOf, SplitAll, Pow2, Block.Last;
    if gaps == [] {
    } else {
      var m := |gaps| - 1;
      var before, last := PiecesOf(gaps[..m], maxHost), SplitAll(CoverOf(gaps[m]), maxHost);
      PiecesAscend(gaps[..m], maxHost);
      CoverOfHolds(gaps[m]);
      CoverAscends(gaps[m]);
      SplitAllAscends(CoverOf(gaps[m]), maxHost);
      forall i, j | 0 <= i < |before| && 0 <= j < |last|
        ensures before[i].Last() < last[j].from
      {
        var k := PieceInGap(gaps[..m], maxHost, i);
        var b := SplitAllIsWithin(CoverOf(gaps[m]), maxHost, j);
        GapsFollow(gaps, k, m);
      }
      AscendingConcat(before, last);
    }
  }

  lemma GapsFollow(gaps: seq<Range>, i: nat, j: nat)
    requires Canonical(gaps) && OneFamily(gaps, V4) && i < j < |gaps|
    ensures gaps[i].to.value < gaps[j].from.value
  {
  }

  /** Expanded pieces come in the order of the pieces. */
  lemma {:induction false} CandidatesAscend(pieces: seq<Block>, base: seq<Range>, maxHost: nat)
    requires Placed(pieces, base, maxHost) && maxHost <= 32 && Ascending(pieces)
    ensures Ascending(Candidates(pieces, base, maxHost))
  {
    hide Grow, Fits, Pow2, Block.Last;
    if pieces == [] {
    } else {
      var m := |pieces| - 1;
      var before, c := Candidates(pieces[..m], base, maxHost), Grow(pieces[m], base, maxHost);
      CandidatesAscend(pieces[..m], base, maxHost);
      if c !in before {
        forall i, j | 0 <= i < |before| && 0 <= j < |[c]|
          ensures before[i].Last() < [c][j].from
        {
          var p := CandidateIsGrown(pieces[..m], base, maxHost, i);
          GrownApart(pieces[p], pieces[m], base, maxHost);
        }
        AscendingConcat(before, [c]);
      }
    }
  }

  lemma {:induction false} GrownApart(p: Block, q: Block, base: seq<Range>, maxHost: nat)
    requires Fits(p, base, maxHost) && Fits(q, base, maxHost) && maxHost <= 32 && p.Last() < q.from
    requires Grow(p, base, maxHost) != Grow(q, base, maxHost)
    ensures Grow(p, base, maxHost).Last() < Grow(q, base, maxHost).from
  {
    hide Grow, Places;
    var x, y := Grow(p, base, maxHost), Grow(q, base, maxHost);
    GrowFits(p, base, maxHost);
    GrowFits(q, base, maxHost);
    if y.from <= x.Last() {
      var a := if x.from < y.from then y.from else x.from;
      assert x.Has(a) && y.Has(a);
      NestedGrown(p, x, q, y, base, maxHost, a);
    }
  }

  /** The plan's targets come in address order. */
  lemma {:induction false} TargetsAscend(base: seq<Range>, gaps: seq<Range>, maxHost: nat)
    requires PlanSpace(base, gaps) && maxHost <= 32
    ensures Ascending(Targets(base, gaps, maxHost))
  {
    hide PiecesOf, Candidates, Placed, Ascending;
    PiecesArePlaced(base, gaps, maxHost);
    PiecesAscend(gaps, maxHost);
    CandidatesAscend(PiecesOf(gaps, maxHost), base, maxHost);
  }

  // ----- The suggestions -----

  const MAX_TARGETS := 16
  const MAX_SUGGESTIONS := 16

  datatype PlanSet = PlanSet(targets: seq<Block>, alreadyCovered: int)

  /** The suggestions that are complete, and the one being filled. */
  datatype Draft = Draft(sets: seq<PlanSet>, current: PlanSet)

  const NO_TARGETS := PlanSet([], 0)

  /** The addresses of a target that are no gap. */
  ghost function CoveredIn(c: Block, gaps: seq<Range>): int {
    Pow2(c.host) - |BlockPlaces(c) * Places(gaps)|
  }

  /** A target starts the next suggestion when the current one has no room for it. */
  predicate StartsNext(current: PlanSet, c: Block, perMonitor: nat) {
    current.targets != [] && (Addresses(current.targets) + Pow2(c.host) > perMonitor || |current.targets| >= MAX_TARGETS)
  }

  function Fill(draft: Draft, c: Block, covered: int, perMonitor: nat): Draft {
    if StartsNext(draft.current, c, perMonitor) then Draft(draft.sets + [draft.current], PlanSet([c], covered))
    else Draft(draft.sets, PlanSet(draft.current.targets + [c], draft.current.alreadyCovered + covered))
  }

  ghost function DraftOf(targets: seq<Block>, gaps: seq<Range>, perMonitor: nat): Draft {
    if targets == [] then Draft([], NO_TARGETS)
    else
      var c := targets[|targets| - 1];
      Fill(DraftOf(targets[..|targets| - 1], gaps, perMonitor), c, CoveredIn(c, gaps), perMonitor)
  }

  ghost function Sets(draft: Draft): seq<PlanSet> {
    draft.sets + if draft.current.targets == [] then [] else [draft.current]
  }

  /** The plan without a bound on the number of its suggestions. */
  ghost function CompletePlan(base: seq<Range>, gaps: seq<Range>, perMonitor: nat, maxHost: nat): seq<PlanSet>
    requires AllValid(gaps)
  {
    Sets(DraftOf(Candidates(PiecesOf(gaps, maxHost), base, maxHost), gaps, perMonitor))
  }

  function AllTargets(sets: seq<PlanSet>): seq<Block> {
    if sets == [] then [] else AllTargets(sets[..|sets| - 1]) + sets[|sets| - 1].targets
  }

  lemma {:induction false} AllTargetsAppend(sets: seq<PlanSet>, last: PlanSet)
    ensures AllTargets(sets + [last]) == AllTargets(sets) + last.targets
  {
    assert (sets + [last])[..|sets|] == sets;
  }

  ghost function SumCovered(targets: seq<Block>, gaps: seq<Range>): int {
    if targets == [] then 0 else SumCovered(targets[..|targets| - 1], gaps) + CoveredIn(targets[|targets| - 1], gaps)
  }

  lemma {:induction false} SumCoveredAppend(targets: seq<Block>, c: Block, gaps: seq<Range>)
    ensures SumCovered(targets + [c], gaps) == SumCovered(targets, gaps) + CoveredIn(c, gaps)
  {
    hide CoveredIn;
    assert (targets + [c])[..|targets|] == targets;
  }

  /** A suggestion that is not too large and counts its covered addresses. */
  ghost predicate Bounded(s: PlanSet, gaps: seq<Range>, perMonitor: nat) {
    && |s.targets| <= MAX_TARGETS
    && Addresses(s.targets) <= perMonitor
    && s.alreadyCovered == SumCovered(s.targets, gaps)
  }

  /** The suggestions hold the targets, in order, and each is bounded and not empty. */
  ghost predicate Drafted(draft: Draft, targets: seq<Block>, gaps: seq<Range>, perMonitor: nat) {
    && AllTargets(draft.sets) + draft.current.targets == targets
    && (forall i :: 0 <= i < |draft.sets| ==> draft.sets[i].targets != [] && Bounded(draft.sets[i], gaps, perMonitor))
    && Bounded(draft.current, gaps, perMonitor)
    && (targets != [] ==> draft.current.targets != [])
  }

  /** No target alone is too large for a suggestion. */
  ghost predicate AllFit(targets: seq<Block>, perMonitor: nat) {
    forall i :: 0 <= i < |targets| ==> Pow2(targets[i].host) <= perMonitor
  }

  lemma {:induction false} DraftIsBounded(targets: seq<Block>, gaps: seq<Range>, perMonitor: nat)
    requires AllFit(targets, perMonitor)
    ensures Drafted(DraftOf(targets, gaps, perMonitor), targets, gaps, perMonitor)
  {
    if targets == [] {
      NothingDrafted(gaps, perMonitor);
    } else {
      var m := |targets| - 1;
      DraftIsBounded(targets[..m], gaps, perMonitor);
      FillKeeps(DraftOf(targets[..m], gaps, perMonitor), targets[..m], targets[m], gaps, perMonitor);
      assert targets == targets[..m] + [targets[m]];
    }
  }

  lemma NothingDrafted(gaps: seq<Range>, perMonitor: nat)
    ensures Drafted(Draft([], NO_TARGETS), [], gaps, perMonitor)
  {
  }

  lemma {:induction false} FillKeeps(draft: Draft, targets: seq<Block>, c: Block, gaps: seq<Range>, perMonitor: nat)
    requires Drafted(draft, targets, gaps, perMonitor) && Pow2(c.host) <= perMonitor
    ensures Drafted(Fill(draft, c, CoveredIn(c, gaps), perMonitor), targets + [c], gaps, perMonitor)
  {
    hide CoveredIn, Addresses, SumCovered, AllTargets, Pow2;
    NoAddresses();
    NoneCovered(gaps);
    AddressesAppend([], c);
    SumCoveredAppend([], c, gaps);
    assert [] + [c] == [c];
    AddressesAppend(draft.current.targets, c);
    SumCoveredAppend(draft.current.targets, c, gaps);
    AllTargetsAppend(draft.sets, draft.current);
  }

  lemma NoneCovered(gaps: seq<Range>)
    ensures SumCovered([], gaps) == 0
  {
  }

  /** Every suggestion but the last has 16 targets or no room for the target that the
      next one begins with. */
  ghost predicate Filled(sets: seq<PlanSet>, perMonitor: nat) {
    && (forall k :: 0 <= k < |sets| ==> sets[k].targets != [])
    && forall k :: 0 <= k < |sets| - 1 ==>
         |sets[k].targets| == 16 || Addresses(sets[k].targets) + Pow2(sets[k + 1].targets[0].host) > perMonitor
  }

  lemma {:induction false} DraftIsFilled(targets: seq<Block>, gaps: seq<Range>, perMonitor: nat)
    ensures var draft := DraftOf(targets, gaps, perMonitor);
            && Filled(Sets(draft), perMonitor)
            && (draft.current.targets == [] ==> draft.sets == [])
            && |draft.current.targets| <= 16
  {
    hide CoveredIn, Addresses, Pow2;
    if targets == [] {
    } else {
      var m := |targets| - 1;
      DraftIsFilled(targets[..m], gaps, perMonitor);
      FillFills(DraftOf(targets[..m], gaps, perMonitor), targets[m], CoveredIn(targets[m], gaps), perMonitor);
    }
  }

  lemma FillFills(draft: Draft, c: Block, covered: int, perMonitor: nat)
    requires Filled(Sets(draft), perMonitor) && (draft.current.targets == [] ==> draft.sets == []) && |draft.current.targets| <= 16
    ensures var next := Fill(draft, c, covered, perMonitor);
            && Filled(Sets(next), perMonitor) && next.current.targets != [] && |next.current.targets| <= 16
  {
    hide Addresses, Pow2;
    var sets, next := Sets(draft), Sets(Fill(draft, c, covered, perMonitor));
    if draft.current.targets == [] {
      assert next == [PlanSet(draft.current.targets + [c], draft.current.alreadyCovered + covered)];
    } else if StartsNext(draft.current, c, perMonitor) {
      assert next == sets + [PlanSet([c], covered)];
    } else {
      var last := |sets| - 1;
      assert next == sets[..last] + [PlanSet(draft.current.targets + [c], draft.current.alreadyCovered + covered)];
      assert (draft.current.targets + [c])[0] == sets[last].targets[0];
    }
  }

  /** The complete plan makes no suggestion smaller than it has to: one ends when it
      has 16 targets or when the next target does not fit beside its own. */
  lemma PlanIsFilled(base: seq<Range>, gaps: seq<Range>, perMonitor: nat, maxHost: nat)
    requires AllValid(gaps)
    ensures var sets := CompletePlan(base, gaps, perMonitor, maxHost);
            && (forall k :: 0 <= k < |sets| ==> sets[k].targets != [])
            && forall k :: 0 <= k < |sets| - 1 ==>
                 |sets[k].targets| == 16 || Addresses(sets[k].targets) + Pow2(sets[k + 1].targets[0].host) > perMonitor
  {
    hide DraftOf, Candidates, PiecesOf, Addresses, Pow2;
    DraftIsFilled(Candidates(PiecesOf(gaps, maxHost), base, maxHost), gaps, perMonitor);
  }

  /** More targets never take back a complete suggestion. */
  lemma {:induction false} DraftGrows(targets: seq<Block>, n: nat, gaps: seq<Range>, perMonitor: nat)
    requires n <= |targets|
    ensures |DraftOf(targets[..n], gaps, perMonitor).sets| <= |DraftOf(targets, gaps, perMonitor).sets|
    decreases |targets| - n
  {
    hide CoveredIn;
    if n == |targets| {
      assert targets[..n] == targets;
    } else {
      DraftGrows(targets, n + 1, gaps, perMonitor);
      assert targets[..n + 1][..n] == targets[..n];
    }
  }

  lemma {:induction false} CandidatesGrow(pieces: seq<Block>, n: nat, base: seq<Range>, maxHost: nat)
    requires n <= |pieces|
    ensures Candidates(pieces[..n], base, maxHost) <= Candidates(pieces, base, maxHost)
    decreases |pieces| - n
  {
    hide Grow;
    if n == |pieces| {
      assert pieces[..n] == pieces;
    } else {
      CandidatesGrow(pieces, n + 1, base, maxHost);
      assert pieces[..n + 1][..n] == pieces[..n];
    }
  }

  // ----- What the plan is -----

  ghost function TargetPlaces(targets: seq<Block>): set<int> {
    if targets == [] then {} else TargetPlaces(targets[..|targets| - 1]) + BlockPlaces(targets[|targets| - 1])
  }

  lemma {:induction false} InTarget(targets: seq<Block>, a: int)
    ensures a in TargetPlaces(targets) <==> exists i :: 0 <= i < |targets| && targets[i].Has(a)
  {
    if targets == [] {
    } else {
      var m := |targets| - 1;
      InTarget(targets[..m], a);
      forall i | 0 <= i < m
        ensures targets[..m][i] == targets[i]
      {
      }
      assert a in BlockPlaces(targets[m]) <==> targets[m].Has(a);
      if i :| 0 <= i < |targets| && targets[i].Has(a) {
        if i < m {
          assert targets[..m][i].Has(a);
        }
      }
    }
  }

  ghost predicate TargetsApart(targets: seq<Block>) {
    forall i, j, a: int :: 0 <= i < |targets| && 0 <= j < |targets| && targets[i].Has(a) && targets[j].Has(a) ==> i == j
  }

  /** The count of covered addresses of targets that are apart is exact. */
  lemma {:induction false} CoveredIsExact(targets: seq<Block>, gaps: seq<Range>)
    requires TargetsApart(targets)
    ensures SumCovered(targets, gaps) == |TargetPlaces(targets) - Places(gaps)|
  {
    hide Places, CoveredIn;
    if targets == [] {
    } else {
      var m := |targets| - 1;
      LastApart(targets, m);
      CoveredIsExact(targets[..m], gaps);
      CoveredInBlock(targets[m], gaps);
      var before, last := TargetPlaces(targets[..m]) - Places(gaps), BlockPlaces(targets[m]) - Places(gaps);
      assert TargetPlaces(targets) - Places(gaps) == before + last;
      assert before !! last;
    }
  }

  lemma {:induction false} LastApart(targets: seq<Block>, m: nat)
    requires TargetsApart(targets) && |targets| == m + 1
    ensures TargetsApart(targets[..m]) && TargetPlaces(targets[..m]) !! BlockPlaces(targets[m])
  {
    hide TargetPlaces;
    forall i | 0 <= i < m
      ensures targets[..m][i] == targets[i]
    {
    }
    forall a: int | a in TargetPlaces(targets[..m])
      ensures a !in BlockPlaces(targets[m])
    {
      InTarget(targets[..m], a);
      var i :| 0 <= i < m && targets[..m][i].Has(a);
      assert targets[i].Has(a);
    }
  }

  lemma {:induction false} CoveredInBlock(c: Block, gaps: seq<Range>)
    ensures CoveredIn(c, gaps) == |BlockPlaces(c) - Places(gaps)|
  {
    hide Places;
    SpanSize(c.from, c.Last());
    var inside, outside := BlockPlaces(c) * Places(gaps), BlockPlaces(c) - Places(gaps);
    assert BlockPlaces(c) == inside + outside && inside !! outside;
  }

  /** The space of a plan: IPv4 ranges, merged, and gaps that lie in it. */
  ghost predicate PlanSpace(base: seq<Range>, gaps: seq<Range>) {
    && Canonical(base) && Canonical(gaps) && OneFamily(base, V4) && OneFamily(gaps, V4)
    && Places(gaps) <= Places(base)
  }

  ghost function Targets(base: seq<Range>, gaps: seq<Range>, maxHost: nat): seq<Block>
    requires AllValid(gaps)
  {
    Candidates(PiecesOf(gaps, maxHost), base, maxHost)
  }

  lemma PiecesArePlaced(base: seq<Range>, gaps: seq<Range>, maxHost: nat)
    requires PlanSpace(base, gaps)
    ensures Placed(PiecesOf(gaps, maxHost), base, maxHost)
  {
    hide Places, PiecesOf, Canonical;
    forall i | 0 <= i < |PiecesOf(gaps, maxHost)|
      ensures Fits(PiecesOf(gaps, maxHost)[i], base, maxHost)
    {
      PieceIsGap(gaps, maxHost, i);
    }
  }

  /** Every target is an allowed block that no larger allowed block contains, and
      that holds a gap address. */
  lemma {:induction false} TargetIsMaximal(base: seq<Range>, gaps: seq<Range>, maxHost: nat, k: nat)
    requires PlanSpace(base, gaps) && maxHost <= 32 && k < |Targets(base, gaps, maxHost)|
    ensures var target := Targets(base, gaps, maxHost)[k];
            && Fits(target, base, maxHost)
            && (forall c: Block :: Fits(c, base, maxHost) && c.Contains(target) ==> c == target)
            && (exists a: int :: a in Places(gaps) && target.Has(a))
  {
    hide Places, PiecesOf, Candidates, Grow, Canonical, Fits;
    var pieces := PiecesOf(gaps, maxHost);
    PiecesArePlaced(base, gaps, maxHost);
    var i := CandidateIsGrown(pieces, base, maxHost, k);
    var target := Grow(pieces[i], base, maxHost);
    PieceIsGap(gaps, maxHost, i);
    GrowFits(pieces[i], base, maxHost);
    assert pieces[i].from in BlockPlaces(pieces[i]);
    assert pieces[i].from in Places(gaps) && target.Has(pieces[i].from);
    forall c: Block | Fits(c, base, maxHost) && c.Contains(target)
      ensures c == target
    {
      GrowIsMaximal(pieces[i], base, maxHost, c, pieces[i].from);
      SameSpan(c, target);
    }
  }

  lemma {:induction false} TargetsAreApart(base: seq<Range>, gaps: seq<Range>, maxHost: nat)
    requires PlanSpace(base, gaps) && maxHost <= 32
    ensures TargetsApart(Targets(base, gaps, maxHost))
  {
    hide Canonical, Places, PiecesOf, Candidates;
    var targets := Targets(base, gaps, maxHost);
    PiecesArePlaced(base, gaps, maxHost);
    forall i, j, a: int | 0 <= i < |targets| && 0 <= j < |targets| && targets[i].Has(a) && targets[j].Has(a)
      ensures i == j
    {
      CandidatesApart(PiecesOf(gaps, maxHost), base, maxHost, i, j, a);
    }
  }

  /** Every gap address is in a target, and targets hold only scannable space. */
  lemma {:induction false} TargetsHoldGaps(base: seq<Range>, gaps: seq<Range>, maxHost: nat)
    requires PlanSpace(base, gaps) && maxHost <= 32
    ensures Places(gaps) <= TargetPlaces(Targets(base, gaps, maxHost)) <= Places(base)
  {
    hide Places, PiecesOf, Candidates, TargetPlaces, Canonical, Grow;
    var targets, pieces := Targets(base, gaps, maxHost), PiecesOf(gaps, maxHost);
    PiecesArePlaced(base, gaps, maxHost);
    forall a | a in Places(gaps)
      ensures a in TargetPlaces(targets)
    {
      var i := GapIsInPiece(gaps, maxHost, a);
      GrowFits(pieces[i], base, maxHost);
      var k := GrownIsCandidate(pieces, base, maxHost, i);
      assert targets[k].Has(a);
      InTarget(targets, a);
    }
    forall a | a in TargetPlaces(targets)
      ensures a in Places(base)
    {
      InTarget(targets, a);
      var k :| 0 <= k < |targets| && targets[k].Has(a);
      TargetIsMaximal(base, gaps, maxHost, k);
      assert a in BlockPlaces(targets[k]);
    }
  }

  lemma {:induction false} SetIsSlice(sets: seq<PlanSet>, k: nat) returns (at: nat)
    requires k < |sets|
    ensures at + |sets[k].targets| <= |AllTargets(sets)|
    ensures forall i :: 0 <= i < |sets[k].targets| ==> sets[k].targets[i] == AllTargets(sets)[at + i]
  {
    var m := |sets| - 1;
    if k < m {
      at := SetIsSlice(sets[..m], k);
    } else {
      at := |AllTargets(sets[..m])|;
    }
  }

  lemma {:induction false} SliceApart(targets: seq<Block>, some: seq<Block>, at: nat)
    requires TargetsApart(targets) && at + |some| <= |targets|
    requires forall i :: 0 <= i < |some| ==> some[i] == targets[at + i]
    ensures TargetsApart(some)
  {
    forall i, j, a: int | 0 <= i < |some| && 0 <= j < |some| && some[i].Has(a) && some[j].Has(a)
      ensures i == j
    {
      assert targets[at + i].Has(a) && targets[at + j].Has(a);
    }
  }

  /** The complete plan: its targets are the expanded gaps, which share no address and
      hold every gap; each suggestion has 1 to 16 targets and at most perMonitor
      addresses, and counts exactly its addresses that are no gap. */
  lemma {:induction false} PlanIsSound(base: seq<Range>, gaps: seq<Range>, perMonitor: nat, maxHost: nat)
    requires PlanSpace(base, gaps) && maxHost <= 32 && Pow2(maxHost) <= perMonitor
    ensures var sets := CompletePlan(base, gaps, perMonitor, maxHost);
            && AllTargets(sets) == Targets(base, gaps, maxHost)
            && TargetsApart(AllTargets(sets)) && Ascending(AllTargets(sets))
            && Places(gaps) <= TargetPlaces(AllTargets(sets)) <= Places(base)
            && forall k :: 0 <= k < |sets| ==>
                 && 0 < |sets[k].targets| <= 16
                 && Addresses(sets[k].targets) <= perMonitor
                 && sets[k].alreadyCovered == |TargetPlaces(sets[k].targets) - Places(gaps)|
  {
    hide Places, PiecesOf, Candidates, TargetPlaces, DraftOf, AllTargets, SumCovered, Addresses, TargetsApart, Ascending, Canonical;
    var targets := Targets(base, gaps, maxHost);
    var draft := DraftOf(targets, gaps, perMonitor);
    var sets := Sets(draft);
    TargetsAreApart(base, gaps, maxHost);
    TargetsAscend(base, gaps, maxHost);
    TargetsHoldGaps(base, gaps, maxHost);
    TargetsFit(base, gaps, maxHost, perMonitor);
    DraftIsBounded(targets, gaps, perMonitor);
    AllTargetsAppend(draft.sets, draft.current);
    assert draft.sets + [] == draft.sets && AllTargets(draft.sets) + [] == AllTargets(draft.sets);
    assert AllTargets(sets) == targets;
    forall k | 0 <= k < |sets|
      ensures 0 < |sets[k].targets| <= MAX_TARGETS && Addresses(sets[k].targets) <= perMonitor
      ensures sets[k].alreadyCovered == |TargetPlaces(sets[k].targets) - Places(gaps)|
    {
      assert Bounded(sets[k], gaps, perMonitor);
      var at := SetIsSlice(sets, k);
      SliceApart(targets, sets[k].targets, at);
      CoveredIsExact(sets[k].targets, gaps);
    }
  }

  lemma {:induction false} TargetsFit(base: seq<Range>, gaps: seq<Range>, maxHost: nat, perMonitor: nat)
    requires PlanSpace(base, gaps) && maxHost <= 32 && Pow2(maxHost) <= perMonitor
    ensures AllFit(Targets(base, gaps, maxHost), perMonitor)
  {
    hide Places, Canonical, Candidates, PiecesOf;
    forall i | 0 <= i < |Targets(base, gaps, maxHost)|
      ensures Pow2(Targets(base, gaps, maxHost)[i].host) <= perMonitor
    {
      TargetIsMaximal(base, gaps, maxHost, i);
      Pow2Grows(Targets(base, gaps, maxHost)[i].host, maxHost);
    }
  }

  /** When the boundary test succeeds, a target of the complete plan holds a covered
      address, so the plan is worth suggesting however much of it is computed. */
  lemma {:induction false} PlanIncludesCovered(base: seq<Range>, gaps: seq<Range>, maxHost: nat) returns (k: nat, a: int)
    requires PlanSpace(base, gaps) && maxHost <= 32 && CanInclude(base, gaps, maxHost)
    ensures k < |Targets(base, gaps, maxHost)| && Targets(base, gaps, maxHost)[k].Has(a)
    ensures a in Places(base) && a !in Places(gaps)
  {
    hide Places, PiecesOf, Candidates, Grow, Canonical;
    var pieces := PiecesOf(gaps, maxHost);
    var c: Block :| Fits(c, base, maxHost) && Holds(c, Places(base) * Places(gaps)) && Holds(c, Places(base) - Places(gaps));
    var g: int :| g in Places(base) * Places(gaps) && c.Has(g);
    a :| a in Places(base) - Places(gaps) && c.Has(a);
    var i := GapIsInPiece(gaps, maxHost, g);
    PiecesArePlaced(base, gaps, maxHost);
    GrowIsMaximal(pieces[i], base, maxHost, c, g);
    k := GrownIsCandidate(pieces, base, maxHost, i);
  }
}
