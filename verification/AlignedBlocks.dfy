/** Aligned blocks of addresses, below 2^width for any width, and the greedy cover
    of a span by them. */
module AlignedBlocks {
  import opened Division
  import opened FiniteSets

  function Pow2(n: nat): (p: nat)
    ensures p > 0
  {
    if n == 0 then 1 else 2 * Pow2(n - 1)
  }

  lemma {:induction false} Pow2Grows(a: nat, b: nat)
    requires a <= b
    ensures Pow2(a) <= Pow2(b)
    ensures a < b ==> 2 * Pow2(a) <= Pow2(b)
    decreases b - a
  {
    if a >= b {
    } else {
      Pow2Grows(a, b - 1);
    }
  }

  lemma {:induction false} Pow2Sum(a: nat, b: nat)
    ensures Pow2(a + b) == Pow2(a) * Pow2(b)
  {
    if a == 0 {
    } else {
      Pow2Sum(a - 1, b);
    }
  }

  lemma Pow2Values()
    ensures Pow2(0) == 1 && Pow2(1) == 2 && Pow2(8) == 256
    ensures Pow2(32) == 0x1_0000_0000 && Pow2(64) == 0x1_0000_0000_0000_0000
    ensures Pow2(128) == 0x1_0000_0000_0000_0000_0000_0000_0000_0000
  {
    assert Pow2(0) == 1 && Pow2(1) == 2 && Pow2(4) == 16;
    hide Pow2;
    Squared(4, 16);
    Squared(8, 256);
    Squared(16, 0x1_0000);
    Squared(32, 0x1_0000_0000);
    Squared(64, 0x1_0000_0000_0000_0000);
  }

  lemma Squared(n: nat, p: nat)
    requires Pow2(n) == p
    ensures Pow2(2 * n) == p * p
  {
    Pow2Sum(n, n);
  }

  /** An aligned address is aligned on every smaller size. */
  lemma {:induction false} AlignedOnLess(a: nat, n: nat, m: nat)
    requires a % Pow2(n) == 0 && m <= n
    ensures a % Pow2(m) == 0
  {
    Pow2Sum(n - m, m);
    var k := a / Pow2(n);
    assert a == k * Pow2(n);
    assert k * (Pow2(n - m) * Pow2(m)) == (k * Pow2(n - m)) * Pow2(m);
    QuotientUnique(a, Pow2(m), k * Pow2(n - m), 0);
  }

  lemma {:induction false} AlignedEnd(a: nat, n: nat)
    requires a % Pow2(n) == 0
    ensures (a + Pow2(n)) % Pow2(n) == 0
  {
    var k := a / Pow2(n);
    assert a == k * Pow2(n);
    assert (k + 1) * Pow2(n) == a + Pow2(n);
    QuotientUnique(a + Pow2(n), Pow2(n), k + 1, 0);
  }

  /** The block of 2^host addresses from an address. */
  datatype Block = Block(from: nat, host: nat) {
    function Last(): int { from + Pow2(host) - 1 }

    predicate Aligned() { from % Pow2(host) == 0 }

    predicate Has(a: int) { from <= a <= Last() }

    predicate Contains(other: Block) { from <= other.from && other.Last() <= Last() }
  }

  /** Two aligned blocks are nested or apart. */
  lemma {:induction false} NestedOrApart(b: Block, c: Block)
    requires b.Aligned() && c.Aligned() && b.host <= c.host
    ensures c.Contains(b) || b.Last() < c.from || c.Last() < b.from
  {
    AlignedOnLess(c.from, c.host, b.host);
    Pow2Grows(b.host, c.host);
    Pow2Sum(c.host - b.host, b.host);
    AlignedEndOnLess(c.from, c.host, b.host);
    if b.from < c.from {
      MultipleBetween(b.from, c.from, Pow2(b.host));
    } else if b.from < c.from + Pow2(c.host) {
      MultipleBetween(b.from, c.from + Pow2(c.host), Pow2(b.host));
    }
  }

  lemma {:induction false} AlignedEndOnLess(a: nat, n: nat, m: nat)
    requires a % Pow2(n) == 0 && m <= n
    ensures (a + Pow2(n)) % Pow2(m) == 0
  {
    AlignedEnd(a, n);
    AlignedOnLess(a + Pow2(n), n, m);
  }

  // ----- Alignment -----

  /** How many low bits of a word are all zero: for zero, the whole width. */
  function TrailingZeros(a: nat, width: nat): (n: nat)
    ensures n <= width
  {
    if width == 0 || a % 2 == 1 then 0 else 1 + TrailingZeros(a / 2, width - 1)
  }

  lemma {:induction false} TrailingZerosAlign(a: nat, width: nat)
    requires a < Pow2(width)
    ensures forall h: nat :: h <= width ==> (a % Pow2(h) == 0 <==> h <= TrailingZeros(a, width))
  {
    if width == 0 {
    } else if a % 2 == 1 {
      forall h: nat | 0 < h <= width
        ensures a % Pow2(h) != 0
      {
        assert Pow2(1) == 2;
        if a % Pow2(h) == 0 {
          AlignedOnLess(a, h, 1);
        }
      }
    } else {
      TrailingZerosAlign(a / 2, width - 1);
      forall h: nat | 0 < h <= width
        ensures a % Pow2(h) == 0 <==> (a / 2) % Pow2(h - 1) == 0
      {
        HalfAligned(a / 2, h - 1);
      }
    }
  }

  lemma {:induction false} HalfAligned(a: nat, h: nat)
    ensures (2 * a) % Pow2(h + 1) == 0 <==> a % Pow2(h) == 0
  {
    Halves(2 * a, Pow2(h));
  }

  lemma Halves(a: nat, p: nat)
    requires p > 0
    ensures a % (2 * p) == 2 * (a / 2 % p) + a % 2
    ensures a / (2 * p) == a / 2 / p
  {
    var q, r := a / 2 / p, a / 2 % p;
    assert a / 2 == q * p + r;
    assert a == q * (2 * p) + (2 * r + a % 2);
    QuotientUnique(a, 2 * p, q, 2 * r + a % 2);
  }

  // ----- The greedy cover -----

  /** The largest block from an address that is aligned and ends within the span. */
  function LargestHost(from: nat, to: nat, host: nat): (h: nat)
    requires from <= to
    ensures h <= host && from + Pow2(h) - 1 <= to
    decreases host
  {
    if from + Pow2(host) - 1 <= to then host
    else LargestHost(from, to, host - 1)
  }

  lemma {:induction false} LargestHostIsLargest(from: nat, to: nat, host: nat, h: nat)
    requires from <= to && h <= host && from + Pow2(h) - 1 <= to
    ensures h <= LargestHost(from, to, host)
  {
    if from + Pow2(host) - 1 <= to {
    } else {
      LargestHostIsLargest(from, to, host - 1, h);
    }
  }

  function LargestBlock(width: nat, from: nat, to: nat): (b: Block)
    requires from <= to < Pow2(width)
    ensures b.from == from && b.Last() <= to
  {
    Block(from, LargestHost(from, to, TrailingZeros(from, width)))
  }

  /** The largest aligned block that starts at `from` and ends within the span. */
  lemma {:induction false} LargestBlockIsLargest(width: nat, from: nat, to: nat)
    requires from <= to < Pow2(width)
    ensures var b := LargestBlock(width, from, to);
            && b.Aligned() && b.host <= width
            && forall h: nat :: h <= width && Block(from, h).Aligned() && Block(from, h).Last() <= to ==> h <= b.host
  {
    TrailingZerosAlign(from, width);
    var b := LargestBlock(width, from, to);
    forall h: nat | h <= width && Block(from, h).Aligned() && Block(from, h).Last() <= to
      ensures h <= b.host
    {
      assert from % Pow2(h) == 0;
      LargestHostIsLargest(from, to, TrailingZeros(from, width), h);
    }
  }

  /** Greedily, the largest block first. */
  function Cover(width: nat, from: nat, to: nat): (blocks: seq<Block>)
    requires from <= to < Pow2(width)
    ensures blocks != []
    decreases (to as int) - from
  {
    var b := LargestBlock(width, from, to);
    [b] + if b.Last() == to then [] else Cover(width, b.Last() + 1, to)
  }

  lemma CoverFirst(width: nat, from: nat, to: nat)
    requires from <= to < Pow2(width)
    ensures var b := LargestBlock(width, from, to);
            Cover(width, from, to) == [b] + if b.Last() == to then [] else Cover(width, b.Last() + 1, to)
  {
  }

  /** Aligned blocks that follow one another from an address to another. */
  ghost predicate Partition(blocks: seq<Block>, width: nat, from: nat, to: int) {
    if blocks == [] then to == from - 1
    else
      && blocks[0].from == from && blocks[0].Aligned() && blocks[0].host <= width && blocks[0].Last() <= to
      && Partition(blocks[1..], width, blocks[0].Last() + 1, to)
  }

  lemma {:induction false} CoverPartitions(width: nat, from: nat, to: nat)
    requires from <= to < Pow2(width)
    ensures Partition(Cover(width, from, to), width, from, to)
    decreases (to as int) - from
  {
    var b := LargestBlock(width, from, to);
    LargestBlockIsLargest(width, from, to);
    var rest := if b.Last() == to then [] else Cover(width, b.Last() + 1, to);
    assert ([b] + rest)[1..] == rest;
    if b.Last() >= to {
    } else {
      CoverPartitions(width, b.Last() + 1, to);
    }
  }

  ghost predicate SomeHas(blocks: seq<Block>, a: int) {
    exists i :: 0 <= i < |blocks| && blocks[i].Has(a)
  }

  /** What a partition holds, by index: in address order, apart, and every address
      of the span in exactly one block. */
  lemma {:induction false} PartitionHolds(blocks: seq<Block>, width: nat, from: nat, to: int)
    requires Partition(blocks, width, from, to)
    ensures forall i :: 0 <= i < |blocks| ==> blocks[i].Aligned() && blocks[i].host <= width && from <= blocks[i].from && blocks[i].Last() <= to
    ensures forall i, j :: 0 <= i < j < |blocks| ==> blocks[i].Last() < blocks[j].from
    ensures forall a :: from <= a <= to ==> SomeHas(blocks, a)
  {
    if blocks == [] {
    } else {
      var rest := blocks[1..];
      var next := blocks[0].Last() + 1;
      PartitionHolds(rest, width, next, to);
      forall i | 0 <= i < |rest|
        ensures rest[i] == blocks[i + 1]
      {
      }
      forall i | 0 < i < |blocks|
        ensures blocks[i] == rest[i - 1]
      {
      }
      forall a | from <= a <= to
        ensures SomeHas(blocks, a)
      {
        if a < next {
          assert blocks[0].Has(a);
        } else {
          assert SomeHas(rest, a);
          var i :| 0 <= i < |rest| && rest[i].Has(a);
          assert blocks[i + 1].Has(a);
        }
      }
    }
  }

  // ----- No cover is shorter -----

  /** Blocks that hold exactly the addresses of a span, in any order, with overlaps
      or without. */
  ghost predicate Covers(blocks: set<Block>, width: nat, from: nat, to: nat) {
    && (forall b :: b in blocks ==> b.Aligned() && b.host <= width && from <= b.from && b.Last() <= to)
    && (forall a: int :: from <= a <= to ==> AnyHas(blocks, a))
  }

  ghost predicate AnyHas(blocks: set<Block>, a: int) {
    exists b :: b in blocks && b.Has(a)
  }

  /** A block of a cover is within the first greedy block or apart from it. */
  lemma {:induction false} WithinFirst(width: nat, from: nat, to: nat, b: Block)
    requires from <= to < Pow2(width)
    requires b.Aligned() && b.host <= width && from <= b.from && b.Last() <= to
    ensures var first := LargestBlock(width, from, to);
            first.Contains(b) || first.Last() < b.from
  {
    var first := LargestBlock(width, from, to);
    LargestBlockIsLargest(width, from, to);
    assert b.from == from ==> Block(from, b.host) == b && b.host <= first.host;
    if b.host <= first.host {
      NestedOrApart(b, first);
    } else {
      NestedOrApart(first, b);
    }
  }

  /** Every collection of aligned blocks that holds exactly a span has at least as
      many blocks as the greedy cover. */
  lemma {:induction false} CoverIsShortest(blocks: set<Block>, width: nat, from: nat, to: nat)
    requires from <= to < Pow2(width) && Covers(blocks, width, from, to)
    ensures |Cover(width, from, to)| <= |blocks|
    decreases (to as int) - from
  {
    var first := LargestBlock(width, from, to);
    assert AnyHas(blocks, from);
    var b :| b in blocks && b.Has(from);
    if first.Last() < to {
      var next := first.Last() + 1;
      var rest := set c | c in blocks && !first.Contains(c);
      RestCovers(blocks, width, from, to, rest);
      CoverIsShortest(rest, width, next, to);
      WithinFirst(width, from, to, b);
      assert b !in rest && rest <= blocks - {b};
      SubsetIsSmaller(rest, blocks - {b});
    } else {
      SubsetIsSmaller({b}, blocks);
    }
  }

  lemma {:induction false} RestCovers(blocks: set<Block>, width: nat, from: nat, to: nat, rest: set<Block>)
    requires from <= to < Pow2(width) && Covers(blocks, width, from, to)
    requires LargestBlock(width, from, to).Last() < to
    requires rest == set c | c in blocks && !LargestBlock(width, from, to).Contains(c)
    ensures Covers(rest, width, LargestBlock(width, from, to).Last() + 1, to)
  {
    var first := LargestBlock(width, from, to);
    forall c | c in rest
      ensures first.Last() < c.from
    {
      WithinFirst(width, from, to, c);
    }
    forall a: int | first.Last() < a <= to
      ensures AnyHas(rest, a)
    {
      assert AnyHas(blocks, a);
      var c :| c in blocks && c.Has(a);
      assert c in rest;
    }
  }

  // ----- The length of a cover -----

  /** From an address aligned on 2^a, a span of less than 2^a addresses takes at
      most a blocks, one for each power of two in its size. */
  lemma {:induction false} CoverOfStart(width: nat, from: nat, to: nat, a: nat)
    requires from <= to < Pow2(width) && a <= width && from % Pow2(a) == 0 && to + 1 < from + Pow2(a)
    ensures |Cover(width, from, to)| <= a
    decreases (to as int) - from
  {
    var b := LargestBlock(width, from, to);
    LargestBlockIsLargest(width, from, to);
    if a <= b.host {
      Pow2Grows(a, b.host);
    }
    if b.Last() >= to {
    } else {
      var next := b.Last() + 1;
      AlignedOnLess(from, a, b.host + 1);
      assert Block(from, b.host + 1).Aligned();
      assert Pow2(b.host + 1) == 2 * Pow2(b.host);
      assert to < Block(from, b.host + 1).Last();
      AlignedEnd(from, b.host);
      CoverOfStart(width, next, to, b.host);
    }
  }

  /** A span that starts after the first address, aligned on 2^t. */
  lemma {:induction false} CoverFromAligned(width: nat, from: nat, to: nat, t: nat)
    requires width >= 2 && 0 < from <= to < Pow2(width) && t < width && from % Pow2(t) == 0
    ensures |Cover(width, from, to)| <= 2 * width - 2 - t
    decreases width - t
  {
    hide Cover, LargestBlock;
    if t + 1 < width && from % Pow2(t + 1) == 0 {
      CoverFromAligned(width, from, to, t + 1);
    } else if to + 1 < from + Pow2(t) {
      CoverOfStart(width, from, to, t);
    } else {
      BlockFromAligned(width, from, to, t);
      CoverStep(width, from, to);
      if to + 1 > from + Pow2(t) {
        assert Pow2(t + 1) == 2 * Pow2(t);
        HalfwayAligned(from, Pow2(t));
        CoverFromAligned(width, from + Pow2(t), to, t + 1);
      }
    }
  }

  lemma CoverStep(width: nat, from: nat, to: nat)
    requires from <= to < Pow2(width)
    ensures var next := from + Pow2(LargestBlock(width, from, to).host);
            |Cover(width, from, to)| == 1 + if next > to then 0 else |Cover(width, next, to)|
  {
  }

  /** An odd multiple of a number and that number make an even one. */
  lemma HalfwayAligned(from: nat, p: nat)
    requires p > 0 && from % p == 0 && from % (2 * p) != 0
    ensures (from + p) % (2 * p) == 0
  {
    var q, r := from / (2 * p), from % (2 * p);
    assert from == q * (2 * p) + r;
    if r < p {
      QuotientUnique(from, p, 2 * q, r);
    } else {
      QuotientUnique(from, p, 2 * q + 1, r - p);
    }
    QuotientUnique(from + p, 2 * p, q + 1, 0);
  }

  lemma {:induction false} BlockFromAligned(width: nat, from: nat, to: nat, t: nat)
    requires width >= 2 && 0 < from <= to < Pow2(width) && t < width && from % Pow2(t) == 0
    requires t + 1 < width ==> from % Pow2(t + 1) != 0
    ensures to + 1 >= from + Pow2(t) ==> LargestBlock(width, from, to).host == t
    ensures to + 1 > from + Pow2(t) ==> t + 1 < width
  {
    var b := LargestBlock(width, from, to);
    LargestBlockIsLargest(width, from, to);
    if to + 1 >= from + Pow2(t) {
      assert Block(from, t).Aligned() && Block(from, t).Last() <= to;
      if b.host > t && t + 1 < width {
        AlignedOnLess(from, b.host, t + 1);
        assert false;
      }
    }
    if t + 1 == width {
      MultipleBetween(0, from, Pow2(t));
      assert Pow2(width) == 2 * Pow2(t);
    }
    if b.host == width {
      MultipleBetween(0, from, Pow2(width));
      assert false;
    }
  }

  /** At most 2W-2 blocks of W bits. */
  lemma {:induction false} CoverIsShort(width: nat, from: nat, to: nat)
    requires from <= to < Pow2(width) && width >= 2
    ensures |Cover(width, from, to)| <= 2 * width - 2
  {
    assert Pow2(0) == 1;
    if from > 0 {
      CoverFromAligned(width, from, to, 0);
    } else if to + 1 < Pow2(width) {
      CoverOfStart(width, from, to, width);
    } else {
      LargestBlockIsLargest(width, from, to);
      assert Block(from, width).Aligned();
      assert Block(from, width).Last() <= to;
    }
  }
}
