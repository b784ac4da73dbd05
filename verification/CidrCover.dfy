/** CIDRs, their last addresses, and the cover of a range by the fewest of them. */
module CidrCover {
  import opened AlignedBlocks
  import opened AddressRanges

  /** An address and the number of its bits that name the network. */
  datatype Prefix = Prefix(addr: Addr, bits: int) {
    predicate IsValid() {
      addr.Addr? && 0 <= bits <= BitLen(addr)
    }

    function HostBits(): nat
      requires IsValid()
    {
      BitLen(addr) - bits
    }
  }

  function Width(family: Family): nat {
    if family.V4? then 32 else 128
  }

  lemma WidthBounds(a: Addr)
    requires a.Addr?
    ensures Pow2(Width(a.family)) == Last(a.family) + 1 && BitLen(a) == Width(a.family)
  {
    Pow2Values();
  }

  /** The block of addresses of a prefix whose host bits are zero. */
  function BlockOf(p: Prefix): Block
    requires p.IsValid()
  {
    Block(p.addr.value, p.HostBits())
  }

  // ----- The last address of a prefix -----

  /** A value with its lowest bits set. */
  function WithHostBits(value: nat, host: nat): nat {
    if host == 0 then value else 2 * WithHostBits(value / 2, host - 1) + 1
  }

  /** A value with its lowest bits clear. */
  function Masked(value: nat, host: nat): nat {
    if host == 0 then value else 2 * Masked(value / 2, host - 1)
  }

  /** The bits of a value that are not among its lowest. */
  function Network(value: nat, host: nat): nat {
    if host == 0 then value else Network(value / 2, host - 1)
  }

  /** From clear to set host bits lie the values of one network. */
  lemma {:induction false} NetworkIsInterval(value: nat, other: nat, host: nat)
    ensures Masked(value, host) <= other <= WithHostBits(value, host) <==> Network(other, host) == Network(value, host)
  {
    if host == 0 {
    } else {
      NetworkIsInterval(value / 2, other / 2, host - 1);
    }
  }

  lemma {:induction false} WithHostBitsBound(value: nat, host: nat, width: nat)
    requires value < Pow2(width) && host <= width
    ensures Masked(value, host) <= value <= WithHostBits(value, host) < Pow2(width)
    ensures WithHostBits(Masked(value, host), host) == WithHostBits(value, host)
  {
    if host == 0 {
    } else {
      WithHostBitsBound(value / 2, host - 1, width - 1);
    }
  }

  /** An aligned value with its host bits set is the last address of its block. */
  lemma {:induction false} AlignedLast(value: nat, host: nat)
    requires value % Pow2(host) == 0
    ensures WithHostBits(value, host) == Block(value, host).Last()
  {
    if host == 0 {
    } else {
      assert Pow2(1) == 2;
      AlignedOnLess(value, host, 1);
      HalfAligned(value / 2, host - 1);
      AlignedLast(value / 2, host - 1);
    }
  }

  lemma {:induction false} MaskedIsAligned(value: nat, host: nat)
    ensures Masked(value, host) % Pow2(host) == 0
  {
    if host == 0 {
    } else {
      MaskedIsAligned(value / 2, host - 1);
      HalfAligned(Masked(value / 2, host - 1), host - 1);
    }
  }

  function ByteNumber(b: bv8): (n: nat)
    ensures n < 256
  {
    b as nat
  }

  function Half(b: bv8): bv8 {
    b >> 1
  }

  /** Twice a byte, with its lowest bit set or clear. */
  function Twice(b: bv8, odd: bool): bv8 {
    (b << 1) | (if odd then 1 else 0)
  }

  /** The number that bytes write, the highest byte first. */
  function BytesValue(b: seq<bv8>): nat {
    if b == [] then 0 else 256 * BytesValue(b[..|b| - 1]) + ByteNumber(b[|b| - 1])
  }

  /** The byte with a number. */
  function ByteOf(x: nat): bv8 {
    if x == 0 then 0 else Twice(ByteOf(x / 2), x % 2 == 1)
  }

  function Bytes(value: nat, n: nat): (b: seq<bv8>)
    ensures |b| == n
    decreases n
  {
    if n == 0 then [] else Bytes(value / 256, n - 1) + [ByteOf(value % 256)]
  }

  lemma Pow2OfBytes(n: nat)
    requires n > 0
    ensures Pow2(8 * n) == 256 * Pow2(8 * (n - 1))
  {
    hide Pow2;
    Pow2Sum(8, 8 * (n - 1));
    Pow2Values();
  }

  lemma {:induction false} BytesWrite(value: nat, n: nat)
    requires value < Pow2(8 * n)
    ensures BytesValue(Bytes(value, n)) == value
    decreases n
  {
    if n == 0 {
    } else {
      Pow2OfBytes(n);
      BytesWrite(value / 256, n - 1);
      Pow2Values();
      ByteOfNumber(value % 256, 8);
      var b := Bytes(value, n);
      assert b[..n - 1] == Bytes(value / 256, n - 1);
    }
  }

  /** Writing a byte's number bit by bit reads back as the number. */
  lemma {:induction false} ByteOfNumber(x: nat, n: nat)
    requires x < Pow2(n) && n <= 8
    ensures ByteNumber(ByteOf(x)) == x
  {
    hide Pow2, ByteNumber, Twice;
    HalfBound(x, n);
    ZeroByte();
    if x == 0 {
    } else {
      ByteOfNumber(x / 2, n - 1);
      TwiceByte(ByteOf(x / 2), x % 2 == 1);
    }
  }

  lemma ZeroByte()
    ensures ByteNumber(0) == 0
  {
  }

  lemma HalfBound(x: nat, n: nat)
    requires x < Pow2(n) && n <= 8
    ensures x > 0 ==> n > 0 && x / 2 < Pow2(n - 1) && x / 2 < 128
  {
    Pow2Values();
    if n > 0 {
      Pow2Grows(n - 1, 7);
      assert Pow2(8) == 2 * Pow2(7);
    }
  }

  /** A byte with its share of the host bits set. */
  function HostByte(b: bv8, networkBits: int): bv8 {
    if networkBits >= 8 then b
    else if networkBits > 0 then b | (0xff >> networkBits)
    else 0xff
  }

  /** Each byte with its share of the host bits set. */
  function HostBytes(b: seq<bv8>, networkBits: int): (r: seq<bv8>)
    ensures |r| == |b|
  {
    seq(|b|, i requires 0 <= i < |b| => HostByte(b[i], networkBits - 8 * i))
  }

  /** Setting a byte's lowest bits sets the lowest bits of its number. */
  lemma {:induction false} HostByteValue(b: bv8, host: nat)
    requires host < 8
    ensures ByteNumber(HostByte(b, 8 - host)) == WithHostBits(ByteNumber(b), host)
    decreases host
  {
    hide HostByte, ByteNumber, Half, Twice;
    HostByteStep(b, host);
    if host == 0 {
    } else {
      HostByteValue(Half(b), host - 1);
      HalfByte(b);
      TwiceByte(HostByte(Half(b), 9 - host), true);
    }
  }

  lemma HostByteStep(b: bv8, host: nat)
    requires host < 8
    ensures host == 0 ==> HostByte(b, 8) == b
    ensures host > 0 ==> HostByte(b, 8 - host) == Twice(HostByte(Half(b), 9 - host), true)
    ensures host > 0 ==> ByteNumber(HostByte(Half(b), 9 - host)) < 128
  {
    if host == 1 {
    } else if host == 2 {
    } else if host == 3 {
    } else if host == 4 {
    } else if host == 5 {
    } else if host == 6 {
    }
  }

  lemma HalfByte(b: bv8)
    ensures ByteNumber(Half(b)) == ByteNumber(b) / 2
  {
  }

  lemma TwiceByte(b: bv8, odd: bool)
    requires ByteNumber(b) < 128
    ensures ByteNumber(Twice(b, odd)) == 2 * ByteNumber(b) + if odd then 1 else 0
  {
  }

  lemma {:induction false} LowBitsOnly(high: nat, low: nat, host: nat)
    requires Masked(high, host) == high
    ensures WithHostBits(high + low, host) == high + WithHostBits(low, host)
  {
    if host == 0 {
    } else {
      LowBitsOnly(high / 2, low / 2, host - 1);
    }
  }

  lemma {:induction false} WholeByte(value: nat, host: nat)
    requires host >= 8
    ensures WithHostBits(value, host) == 256 * WithHostBits(value / 256, host - 8) + 255
  {
    var two := value / 2 / 2;
    var four := two / 2 / 2;
    assert four / 2 / 2 / 2 / 2 == value / 256;
    assert WithHostBits(value, host) == 4 * WithHostBits(two, host - 2) + 3;
    assert WithHostBits(two, host - 2) == 4 * WithHostBits(four, host - 4) + 3;
    assert WithHostBits(four, host - 4) == 4 * WithHostBits(four / 2 / 2, host - 6) + 3;
    assert WithHostBits(four / 2 / 2, host - 6) == 4 * WithHostBits(four / 2 / 2 / 2 / 2, host - 8) + 3;
  }

  lemma UnchangedBytes(b: seq<bv8>, networkBits: nat)
    requires networkBits >= 8 * |b|
    ensures HostBytes(b, networkBits) == b
  {
  }

  /** Setting host bits byte by byte sets the lowest bits of the whole number. */
  lemma {:induction false} HostBytesValue(b: seq<bv8>, networkBits: nat)
    requires networkBits <= 8 * |b|
    ensures BytesValue(HostBytes(b, networkBits)) == WithHostBits(BytesValue(b), 8 * |b| - networkBits)
  {
    hide HostBytes, HostByte, WithHostBits, BytesValue, ByteNumber;
    BytesValueStep(b);
    BytesValueStep(HostBytes(b, networkBits));
    if networkBits == 8 * |b| {
      UnchangedBytes(b, networkBits);
      NoHostBits(BytesValue(b));
    } else {
      var n := |b| - 1;
      var high, low, host := BytesValue(b[..n]), ByteNumber(b[n]), 8 * |b| - networkBits;
      LastHostByte(b, networkBits, n);
      if host >= 8 {
        HostBytesValue(b[..n], networkBits);
        WholeByte(256 * high + low, host);
      } else {
        UnchangedBytes(b[..n], networkBits);
        WithinByte(b[n], high, host);
      }
    }
  }

  lemma BytesValueStep(b: seq<bv8>)
    ensures b != [] ==> BytesValue(b) == 256 * BytesValue(b[..|b| - 1]) + ByteNumber(b[|b| - 1])
  {
  }

  lemma NoHostBits(value: nat)
    ensures WithHostBits(value, 0) == value
  {
  }

  lemma LastHostByte(b: seq<bv8>, networkBits: nat, n: nat)
    requires |b| == n + 1
    ensures var r := HostBytes(b, networkBits);
            && r[..n] == HostBytes(b[..n], networkBits)
            && r[n] == HostByte(b[n], networkBits - 8 * n)
            && (networkBits <= 8 * n ==> ByteNumber(r[n]) == 255)
  {
  }

  lemma WithinByte(b: bv8, high: nat, host: nat)
    requires 0 < host < 8
    ensures WithHostBits(256 * high + ByteNumber(b), host) == 256 * high + ByteNumber(HostByte(b, 8 - host))
  {
    hide Pow2, HostByte, WithHostBits, Masked, ByteNumber;
    Pow2Values();
    AlignedOnLess(256 * high, 8, host);
    NetworkIsQuotient(256 * high, host);
    LowBitsOnly(256 * high, ByteNumber(b), host);
    HostByteValue(b, host);
  }

  /** Sets every bit after the network's, in place. */
  method SetHostBits(b: array<bv8>, networkBits0: int)
    requires 0 <= networkBits0 <= 8 * b.Length
    modifies b
    ensures b[..] == HostBytes(old(b[..]), networkBits0)
    ensures BytesValue(b[..]) == WithHostBits(BytesValue(old(b[..])), 8 * b.Length - networkBits0)
  {
    var networkBits := networkBits0;
    ghost var was := b[..];
    for i := 0 to b.Length
      invariant networkBits == if 8 * i <= networkBits0 then networkBits0 - 8 * i else 0
      invariant forall j :: 0 <= j < i ==> b[j] == HostByte(was[j], networkBits0 - 8 * j)
      invariant forall j :: i <= j < b.Length ==> b[j] == was[j]
    {
      if networkBits >= 8 {
        networkBits := networkBits - 8;
      } else if networkBits > 0 {
        b[i] := b[i] | (0xff >> networkBits);
        networkBits := 0;
      } else {
        b[i] := 0xff;
      }
    }
    HostBytesValue(was, networkBits0);
  }

  /** The last address of a prefix, in its family. */
  method LastAddr(p: Prefix) returns (last: Addr)
    requires p.IsValid()
    ensures last.Addr? && last.family == p.addr.family
    ensures last.value == WithHostBits(p.addr.value, p.HostBits())
  {
    hide WithHostBits, BytesValue, HostBytes, Bytes;
    WidthBounds(p.addr);
    WithHostBitsBound(p.addr.value, p.HostBits(), Width(p.addr.family));
    var n := if p.addr.family.V4? then 4 else 16;
    var bytes := Bytes(p.addr.value, n);
    BytesWrite(p.addr.value, n);
    var b := new bv8[n](i requires 0 <= i < n => bytes[i]);
    assert b[..] == bytes;
    SetHostBits(b, p.bits);
    return Addr(p.addr.family, BytesValue(b[..]));
  }

  /** The range of every address with the network bits of a prefix. */
  method FromPrefix(p: Prefix) returns (r: Range)
    ensures !p.IsValid() ==> !r.Valid()
    ensures p.IsValid() ==>
              && r.Valid() && r.from.family == p.addr.family
              && r.from.value == Masked(p.addr.value, p.HostBits()) && r.to.value == WithHostBits(p.addr.value, p.HostBits())
              && forall value: nat :: r.from.value <= value <= r.to.value <==> Network(value, p.HostBits()) == Network(p.addr.value, p.HostBits())
  {
    if !p.IsValid() {
      return Range(NoAddr, NoAddr);
    }
    hide WithHostBits, Masked, Network;
    var host, value := p.HostBits(), p.addr.value;
    WidthBounds(p.addr);
    WithHostBitsBound(value, host, BitLen(p.addr));
    var masked := Prefix(Addr(p.addr.family, Masked(value, host)), p.bits);
    var to := LastAddr(masked);
    r := Range(masked.addr, to);
    forall other: nat
      ensures r.from.value <= other <= r.to.value <==> Network(other, host) == Network(value, host)
    {
      NetworkIsInterval(value, other, host);
    }
  }

  // ----- Alignment -----

  /** The number of trailing zero bits of an address, which is the bit length of
      its family for the first. An IPv6 address is read as two words. */
  method Alignment(a: Addr) returns (n: nat)
    requires a.Addr?
    ensures n == TrailingZeros(a.value, BitLen(a))
  {
    if a.family.V4? {
      return TrailingZeros(a.value, 32);
    }
    var low := a.value % TWO64;
    TwoWords(a.value);
    if low != 0 {
      return TrailingZeros(low, 64);
    }
    return 64 + TrailingZeros(a.value / TWO64, 64);
  }

  lemma TwoWords(a: nat)
    ensures TrailingZeros(a, 128) == if a % TWO64 != 0 then TrailingZeros(a % TWO64, 64) else 64 + TrailingZeros(a / TWO64, 64)
  {
    hide TrailingZeros;
    Pow2Values();
    WordSplit(a, 64);
    NetworkIsQuotient(a, 64);
  }

  lemma {:induction false} WordSplit(a: nat, n: nat)
    ensures Masked(a, n) <= a
    ensures TrailingZeros(a, n + 64) == if a != Masked(a, n) then TrailingZeros(a - Masked(a, n), n) else n + TrailingZeros(Network(a, n), 64)
  {
    if n == 0 {
    } else {
      WordSplit(a / 2, n - 1);
    }
  }

  lemma {:induction false} NetworkIsQuotient(a: nat, n: nat)
    ensures Network(a, n) == a / Pow2(n)
    ensures Masked(a, n) == a - a % Pow2(n)
  {
    if n == 0 {
    } else {
      NetworkIsQuotient(a / 2, n - 1);
      Halves(a, Pow2(n - 1));
    }
  }

  // ----- Cover -----

  /** The largest CIDR from an address that ends no later than another. */
  method LargestPrefix(from: Addr, to: Addr) returns (prefix: Prefix)
    requires Range(from, to).Valid()
    ensures prefix.IsValid() && prefix.addr == from
    ensures to.value < Pow2(BitLen(from)) && BlockOf(prefix) == LargestBlock(BitLen(from), from.value, to.value)
  {
    hide WithHostBits, TrailingZeros;
    WidthBounds(from);
    var alignment := Alignment(from);
    var size := BitLen(from) - alignment;
    TrailingZerosAlign(from.value, BitLen(from));
    while true
      invariant 0 <= size <= BitLen(from)
      invariant BitLen(from) - size <= alignment
      invariant LargestHost(from.value, to.value, alignment) == LargestHost(from.value, to.value, BitLen(from) - size)
      decreases BitLen(from) - size
    {
      prefix := Prefix(from, size);
      var last := LastAddr(prefix);
      assert from.value % Pow2(prefix.HostBits()) == 0;
      AlignedLast(from.value, prefix.HostBits());
      if Compare(last, to) <= 0 {
        return;
      }
      assert Pow2(0) == 1;
      size := size + 1;
    }
  }

  ghost function Blocks(prefixes: seq<Prefix>): (blocks: seq<Block>)
    requires forall i :: 0 <= i < |prefixes| ==> prefixes[i].IsValid()
    ensures |blocks| == |prefixes|
    ensures forall i :: 0 <= i < |blocks| ==> blocks[i] == BlockOf(prefixes[i])
  {
    seq(|prefixes|, i requires 0 <= i < |prefixes| => BlockOf(prefixes[i]))
  }

  ghost predicate OfFamily(prefixes: seq<Prefix>, family: Family) {
    forall i :: 0 <= i < |prefixes| ==> prefixes[i].IsValid() && prefixes[i].addr.family == family
  }

  /** A range as aligned CIDRs that follow one another, as few as possible. */
  method Cover(r: Range) returns (out: seq<Prefix>)
    ensures !r.Valid() ==> out == []
    ensures r.Valid() ==>
              && OfFamily(out, r.from.family)
              && r.to.value < Pow2(BitLen(r.from))
              && Blocks(out) == AlignedBlocks.Cover(BitLen(r.from), r.from.value, r.to.value)
  {
    hide WithHostBits, LargestHost, TrailingZeros, LargestBlock, AlignedBlocks.Cover, Blocks, Pow2;
    out := [];
    if !r.Valid() {
      return;
    }
    WidthBounds(r.from);
    var width := BitLen(r.from);
    var from := r.from;
    ghost var all := AlignedBlocks.Cover(width, r.from.value, r.to.value);
    NoBlocks();
    while true
      invariant Range(from, r.to).Valid() && from.family == r.from.family
      invariant OfFamily(out, r.from.family)
      invariant all == Blocks(out) + AlignedBlocks.Cover(width, from.value, r.to.value)
      decreases (r.to.value as int) - from.value
    {
      CoverFirst(width, from.value, r.to.value);
      var prefix := LargestPrefix(from, r.to);
      NextBlock(out, prefix);
      out := out + [prefix];
      var last := LastAddr(prefix);
      LargestBlockIsLargest(width, from.value, r.to.value);
      AlignedLast(from.value, prefix.HostBits());
      if last == r.to {
        return;
      }
      from := Next(last);
    }
  }

  lemma NoBlocks()
    ensures Blocks([]) == []
  {
  }

  lemma NextBlock(prefixes: seq<Prefix>, prefix: Prefix)
    requires prefix.IsValid() && forall i :: 0 <= i < |prefixes| ==> prefixes[i].IsValid()
    ensures Blocks(prefixes + [prefix]) == Blocks(prefixes) + [BlockOf(prefix)]
  {
  }
}
